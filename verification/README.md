# A verified model of bcfuzzer

bcfuzzer mutates the configuration files of blockchain nodes, probes whether the mutated
configuration is admitted, drives seeds against the network and watches the normal nodes
for failures. This project models the parts of it that keep state or transform text and
bytes, and proves what they promise. `dafny verify dfyconfig.toml` checks everything.

| files | what they model |
|---|---|
| `Histories`, `ControlledStall`, `Timeouts`, `Findings`, `IdleWindow`, `Steps`, `Oracle`, `Listing`, `Observations`, `Warrants`, `Detections`, `Reports` | the BCB oracle. Each counter is a notion defined over everything observed (`Histories`); the class `BcbOracle` of `Oracle` updates its fields as the code does and keeps every field equal to its notion (`Steps`); `IdleWindow` is its baseline; `Observations` says which findings are due at which place of an observation and that exactly these are reported, and `Warrants` and `Detections` when a node is reported with a signal; `Reports` is the deduplicated report list |
| `Tars`, `TarsWriter` | the Tars byte encoder, a decoder written from the public protocol, and the transactions built with it |
| `ConfigLines`, `LineFormat`, `LineEditor`, `EditedFiles`, `Leaves`, `JsonTexts`, `LineSweep`, `Sanitizer`, `CleanedValues`, `Adapters` | section-aware editing of configuration lines, the same on the text of a file, how values are written, the sanitizers, and the geth and fisco adapters built from them |
| `TomlPatches`, `YamlPaths` | the second TOML editor, and dotted paths in YAML trees |
| `ConfigFiles`, `Pristine` | snapshot and rollback of one editor; restore between rounds of a campaign |
| `Values`, `Items`, `GeneratedValues`, `Mei`, `Plans`, `Runs`, `EndlessTrials`, `Scheduler`, `Seeds` | values and what the mutation rules make of them, the mutation-effective index, what a round may plan, whole campaigns and the endless ones among them, the two-level scheduler, and seed placement |
| `Coverage` | line-coverage accounting |
| `Text`, `Sets`, `Results` | what the others share: trimming, line splitting, decimal numerals, string order, intervals, options |

How the model is read:

- A method is proved against functions over its inputs, or over the history it has seen;
  the lemmas are about those functions. Lines are classified into kinds (plain, header,
  entry), a file's view is its list of settings (section, key, value), and a lookup is the
  first setting of that name.
- Every probe result, verdict, time and random choice is an input or an arbitrary member
  of its pool. A raised exception is `None`, `false` or an outcome named `Raise`.
- `int(text, 0)` is a function parameter of the sanitizers, of which only
  `parse(Show(n)) == Some(n)` is assumed, as a precondition.

Where the code differs from what one would expect of it, the code is modelled and the
difference is stated:

- On a mutated aptos node the best ledger is stored only by an unreachable read or by an
  increase over a stored one, so a node that grows at every read is counted as stalled.
  `GrowingReportedIff` gives the exact condition.
- `write_byte` writes 128..255 as a byte that the protocol reads back negative
  (`ByteRoundTripIff`).
- `_write_line` puts a key at the end of the file when its header exists but its section has
  no entries, and it replaces a bare `key:` line by one that opens no section.
  `FilePutGetIff` characterises the files on which writing and reading one-line values
  agree. A text in an INI file is written as it is, so of a text with line breaks only the
  first line is read back (`ReadsFirstLine`, `ReadsBackIff`).
- mei.py speaks of ten rejections; the code counts the different texts of rejected pairs, so
  repeating a rejection does not count again (`RepeatedRejection`). Two pairs can share one
  text, and one pair can have two (`TextsAndPairsDiffer`); where neither happens, the texts
  are as many as the pairs (`TextsCountPairs`).
- `mutate_one` reports the rule, not the value, for a list item, and generates a missing
  forced value again. For some catalog items a candidate can so be reported as another
  pair; `FaithfulIff` says for which. A scheduler that has a controlled node and can reach
  such an item can propose the same pair afresh in any number of rounds though it is never
  admitted; every other scheduler in no two (`NeverRepeatsIff`, `FreshRoundsBoundedIff`).
- A pick adds two to a seed's counter, once in `pick_seed` and once after the execution.
  From fresh counters the allowed seeds run again and again exactly when at most seven seeds
  are blocked (`StarvesIff`); with eight, none runs twice, and one that eight blocked ids come
  before never runs (`RunsAtMostOnce`).
- The gas-limit collapse counts every limit below 300000 other than 0, negative ones too.
- `set_nested_value` names a dictionary member where `_set_dotted_path` would take a
  signed number as a list index (`NestedDiffers`). Where it succeeds, the two agree exactly
  when `_set_dotted_path` succeeds too, that is on a settable path (`NestedIsSetIff`).

## Model

| member | source | states |
|---|---|---|
| Histories.TrailingIff | bcfuzzer/oracle.py:260-293 | a streak counter reaches n exactly when the last n flags are all true |
| Histories.BestIsMaximum | bcfuzzer/oracle.py:262-293 | the recorded height of a node is the maximum over its base read and every later read that is not negative, and one of those reads attains it |
| Histories.BestNeverFalls | bcfuzzer/oracle.py:293-293 | no probe, failed ones included, lowers the recorded height |
| Histories.EverGrewIff | bcfuzzer/oracle.py:277-278 | the network counts as having grown exactly when some read exceeded its node's best at that time |
| Histories.StallsIff | bcfuzzer/oracle.py:266-292 | a durable stall is reported exactly at a valid read that is the last of stall_windows consecutive valid reads without progress, each at least 0.8 window after the read before it and after the network had grown |
| Histories.GrowingNeverStalls | bcfuzzer/oracle.py:277-288 | a normal node that exceeds its best at every read after its first has stall count 0, for a window of which 0.8 exceeds 1e-6, the least elapsed time |
| Histories.AccountsTelescope | bcfuzzer/oracle.py:314-316 | for any counter: reported plus absorbed events equal last minus first value plus what the counter dropped |
| Histories.EachEventOnce | bcfuzzer/oracle.py:314-316 | on a counter that never goes back, the event numbers between first and last read split into reported and absorbed ones, disjoint and together all, and the two sums are their sizes |
| Histories.CollapseIff | bcfuzzer/oracle.py:352-363 | the collapse counter reaches a limit exactly when the node's last reads, that many, are all collapsed |
| Histories.LastArmedIsLatest | bcfuzzer/oracle.py:297-298 | the arming latch is set iff some observed round was armed, and holds the largest armed round id |
| Histories.GateIff | bcfuzzer/oracle.py:299-300 | with round ids in order, the pending-growth gate is open in round r iff round r or r - 1 was armed |
| ControlledStall.StallOfGrowing | bcfuzzer/oracle.py:405-416 | the stall count of a growing controlled node: the number of reads up to the first unreachable one, and 0 once a reachable read has followed it |
| ControlledStall.GrowingCountedAsStalled | bcfuzzer/oracle.py:410-413 | ledgers 1, 2, 3 are counted as three stalled windows |
| ControlledStall.GrowingReportedIff | bcfuzzer/oracle.py:405-418 | a growing controlled node reaches the stall limit exactly when its first unreachable read, or the end, comes after at least that many reachable reads |
| ControlledStall.TrackIs | bcfuzzer/oracle.py:405-416 | the track of any node: before the first failed read every read counts as stalled; once a reachable read has followed it, the best is the highest of those and the reads after the first such are counted |
| Detections.GrowthIs | bcfuzzer/oracle.py:261-265 | the growth of an observation is the largest gain of a probe over its node's best, and never below 0 |
| Detections.LedgersSnoc | bcfuzzer/oracle.py:403-416 | the ledgers that are tracked are the reads of a node that was alive with sync_only or round_initial_timeout_ms mutated |
| Detections.CollapsedReads | bcfuzzer/oracle.py:355-356 | a read is collapsed exactly when it is below 300000 and not 0 |
| Detections.ArmsIff | bcfuzzer/oracle.py:374-383 | the gate is armed by chain.block_limit set to 1, True or "1" |
| Oracle.BcbOracle.constructor | bcfuzzer/oracle.py:155-176 | a new oracle has seen nothing; the stall limit is 9 for chainmaker and 3 otherwise |
| Oracle.BcbOracle.RegisterBaseline | bcfuzzer/oracle.py:181-214 | the baseline is that of the idle window (IdleWindow.ComputeBaseline); the heights are re-based and every field stays equal to its notion |
| IdleWindow.ComputeBaseline | bcfuzzer/oracle.py:181-211 | height gained per node and events gained per time, losses counting as nothing; each fragment's count summed over the nodes; the distinct timeouts in the order of their texts; the largest backlog; the largest gas limit on geth and 0 elsewhere |
| Timeouts.DistinctIs | bcfuzzer/oracle.py:197-199 | sorting a set of texts keeps exactly the timeouts there are, each once, their texts in the order of a dictionary |
| Text.LeIff | bcfuzzer/scheduler.py:121-125 | a text comes before another exactly when it is a prefix of it, or has the smaller character at the first place where they differ |
| Text.BreaksAre | bcfuzzer/mutator.py:296-296 | the characters at which a line ends, and those that are stripped |
| IdleWindow.LargestIs | bcfuzzer/oracle.py:194-201 | the largest value is attained by a node and is 0 without nodes |
| IdleWindow.GainedBalance | bcfuzzer/oracle.py:186-205 | what is gained between two rounds of probes, less what is gained from the second to the first, is the change of the total |
| IdleWindow.GainedNothing | bcfuzzer/oracle.py:186-205 | nothing is gained exactly when no node has gained anything |
| IdleWindow.ShownJoins | bcfuzzer/oracle.py:189-192 | the counts of a fragment add up over the nodes |
| IdleWindow.ShownOnce | bcfuzzer/oracle.py:189-192 | and are for one node the count listed for the fragment, 0 without one |
| IdleWindow.TimeoutsJoin | bcfuzzer/oracle.py:197-199 | the timeouts are those of every node |
| Oracle.BcbOracle.SettleAfterRestarts | bcfuzzer/oracle.py:216-232 | on fisco appends one settling read for every counter, on other targets changes nothing; nothing is reported |
| Oracle.BcbOracle.StallStep | bcfuzzer/oracle.py:262-293 | one height read: the history grows by it, the fields stay the notions of the history, a finding appears exactly when the history stalls, and the growth is against the best so far |
| Oracle.BcbOracle.ObserveStalls | bcfuzzer/oracle.py:260-293 | the whole loop: findings in probe order and the largest growth, both as functions of the history |
| Oracle.BcbOracle.ObservePeers | bcfuzzer/oracle.py:245-258 | the loops over nodes and over their panic counts make the findings that DeathReportedIff and PanicReportedIff speak of, in order |
| Oracle.BcbOracle.FiscoStep | bcfuzzer/oracle.py:301-343 | one probe makes the findings that TimeoutReportedIff, StormReportedIff and PendingReportedIff speak of, and its counter read is appended to the history |
| Oracle.BcbOracle.ObserveFisco | bcfuzzer/oracle.py:295-343 | arms the latch, then makes the findings of every node from the gate, the heights and the counter history |
| Oracle.BcbOracle.CollapseStep | bcfuzzer/oracle.py:354-363 | a finding exactly when the gas history of the node has collapsed for at least three reads in a row |
| Oracle.BcbOracle.ControlledStep | bcfuzzer/oracle.py:397-426 | the controlled-node branch as the code has it, over the ledgers read |
| Oracle.BcbOracle.Observe | bcfuzzer/oracle.py:236-372 | one observation extends each history by exactly what its platform reads and keeps every field equal to its notion; its failures are exactly the due findings, one for each place that has one and in the order of the places (check, node, test), and every signal is reported for every node exactly when it is warranted |
| Observations.JoinedExactly | bcfuzzer/oracle.py:236-372 | which findings are due where: signal, node and detail of every test of the six checks, in terms of the probes, the seed results and the histories; the joined findings list exactly these |
| Warrants.ReportedIff | bcfuzzer/oracle.py:236-455 | for each of the thirteen kinds of signal the exact condition under which an observation reports a node with it |
| Warrants.ChecksInOrder | bcfuzzer/oracle.py:245-372 | peers, stalls, fisco, seed results, capacity, controlled nodes |
| Detections.DeathReportedIff | bcfuzzer/oracle.py:246-249 | a death is reported exactly for the nodes that a probe finds dead |
| Detections.StallReportedIff | bcfuzzer/oracle.py:260-293 | a node is reported as stalled by an observation exactly when the history stalls at one of its probes |
| Detections.CollapseReportedIff | bcfuzzer/oracle.py:352-363 | a node is reported as collapsed exactly at a read that ends at least three collapsed reads in a row |
| Detections.PanicReportedIff | bcfuzzer/oracle.py:249-258 | a panic signal is reported for a node exactly when a probe of it shows a fragment mapped to that signal with a count other than 0 above the fragment's count in the idle window |
| Detections.TimeoutReportedIff | bcfuzzer/oracle.py:301-313 | timeout growth is reported for a node exactly when a probe of it shows a timeout of at least three times every baseline timeout, 9000 without any |
| Detections.StormReportedIff | bcfuzzer/oracle.py:314-325 | a storm is reported for a node exactly when there is a baseline and the events above the last read of its counter reach both 10 times rate times window and 0.1 times window |
| Detections.PendingReportedIff | bcfuzzer/oracle.py:326-343 | pending growth is reported for a node exactly when the gate is open, the node is not stalled, and with a baseline its backlog is at least 50 and at least 10 more than twice the baseline's |
| Detections.SeedReportedIff | bcfuzzer/oracle.py:428-455 | each of the three seed failures is reported for a node exactly when a result of it shows it, a replacement pair only when neither of the other two applies |
| Detections.StallFindingFrom | bcfuzzer/oracle.py:289-292 | every durable-stall finding comes from a probe at which the history stalls |
| Detections.StalledAfter | bcfuzzer/oracle.py:289-293 | a node reported as stalled still counts as stalled when the stall loop is over |
| Detections.NotBoth | bcfuzzer/oracle.py:326-343 | no observation reports both a durable stall and pending growth for the same node |
| Detections.PendingFindingFrom | bcfuzzer/oracle.py:337-343 | a pending-growth finding needs a baseline, an open gate, a node that is not stalled and a backlog at the bound |
| Detections.PendingNeedsArming | bcfuzzer/oracle.py:374-383 | pending growth in round r implies that round r or r - 1 set chain.block_limit to 1 |
| Reports.SignatureInjective | bcfuzzer/oracle.py:473-473 | different groups have different signatures |
| Reports.BugIdInjective | bcfuzzer/oracle.py:484-484 | different report numbers have different bug ids, past 999 too |
| Reports.PaddedValue | bcfuzzer/oracle.py:484-484 | the number in a bug id has three digits, or as many as it needs |
| Reports.SeverityIs | bcfuzzer/oracle.py:71-120 | the severity that the library gives a signal, and a warning for one it does not know |
| Reports.GroupsIff | bcfuzzer/oracle.py:472-479 | the groups are the distinct keys of the calls made |
| Reports.OccurrencesAddUp | bcfuzzer/oracle.py:474-479 | the sizes of the groups add up to the number of calls |
| Reports.ReportBook.Report | bcfuzzer/oracle.py:459-500 | null exactly for a group seen before; report k stays the k-th group in first-occurrence order with its first call (failure and detail, round, placement, operations), its severity, its size and its last round, and the index holds the very same objects |
| Reports.BookAddsUp | bcfuzzer/oracle.py:472-500 | occurrences add up to the calls, and no two reports share a bug id or a signature |
| Tars.FieldRoundTrip | live_node_fisco.py:204-255 | decoding the bytes of any encodable field followed by anything gives the field and the rest |
| Tars.BodyRoundTrip | live_node_fisco.py:254-255 | the same for the fields of a struct up to its end marker, nested ones included |
| Tars.BodyInjective | live_node_fisco.py:197-255 | two field lists with the same bytes and any continuation are equal, and so are the continuations |
| Tars.NoProperPrefix | live_node_fisco.py:254-255 | no proper prefix of an encoded struct decodes as a struct |
| Tars.NarrowestInt | live_node_fisco.py:211-229 | no byte string that decodes to an integer field is shorter than the one written |
| Tars.WireHead | live_node_fisco.py:197-209 | the first byte holds the protocol's type code, by the ranges of numbers and lengths, and the tag, which has a byte of its own from 15 on |
| Tars.Positional | live_node_fisco.py:216-229 | numbers go with their most significant byte first |
| Tars.WireString | live_node_fisco.py:231-239 | a length in one byte or in four, and the text |
| Tars.WireBlob | live_node_fisco.py:241-245 | the type byte of the elements, the length as an integer of tag 0, and the data |
| Tars.WireStruct | live_node_fisco.py:254-255 | a struct holds its fields behind its head, closed by the end marker 0x0B |
| Tars.WireFields | live_node_fisco.py:197-255 | fields follow each other without anything between |
| TarsWriting.TarsWriter.WriteInt | live_node_fisco.py:211-222 | appends the field's encoding iff it is encodable in 32 bits |
| TarsWriting.TarsWriter.WriteLong | live_node_fisco.py:224-229 | appends the field's encoding iff it is encodable in 64 bits |
| TarsWriting.TarsWriter.WriteString | live_node_fisco.py:231-239 | appends the one- or four-byte length form, iff the length fits |
| TarsWriting.TarsWriter.WriteBytes | live_node_fisco.py:241-245 | appends the simple list of the bytes, iff the length fits |
| TarsWriting.ByteRoundTripIff | live_node_fisco.py:247-252 | write_byte is undone by the decoder iff the value is below 128, and is then the integer encoding |
| TarsWriting.TransactionFields | live_node_fisco.py:268-281 | the members are in strictly rising tag order, and tag 7 is among them iff the input is not empty |
| TarsWriting.FieldsSayTransaction | live_node_fisco.py:268-281 | what a reader finds by tag: 1 the version, 2 "chain0", 3 "group0", 4 the block limit, 5 the nonce, 6 the recipient, 7 the input unless it is empty, 11 the gas limit, 9, 10, 12 and 13 "0x0", and nothing else |
| TarsWriting.BuildTransactionData | live_node_fisco.py:258-283 | with an empty nonce replaced by the generated one, fails exactly outside the argument ranges; otherwise the bytes decode, before any continuation, to members that say every argument under its tag, and no proper prefix decodes |
| TarsWriting.TransactionFieldsInjective | live_node_fisco.py:258-283 | the members determine the transaction, so the bytes do |
| TarsWriting.BuildNativeTransaction | live_node_fisco.py:331-345 | the bytes decode to a wrapper with the transaction, said member by member, under tag 1, the hash under 2, the signature under 3 and 0 under 9, and no proper prefix decodes |
| ConfigLines.ItemsMatchView | config_mutators.py:30-48 | the parsed items are, in order, the settings of the view, each at a line that is its entry |
| LineFormat.ClassifyRender | config_mutators.py:54-57 | a rendered line parses back to its indent, key, separator and value, for any value |
| LineFormat.HeaderIff | config_mutators.py:36-37 | a line is the header of a section exactly when its trimmed text is the bracketed name |
| LineFormat.ParseLines | config_mutators.py:30-48 | the loop with its running section returns exactly the items of the lines |
| LineEditor.ReadValue | bcfuzzer/mutator.py:230-240 | returns the first setting of that section and key in the view |
| LineEditor.WriteLine | bcfuzzer/mutator.py:293-317 | the in-place replace, insert or append is the edit the laws are about |
| LineEditor.LinesKept | bcfuzzer/mutator.py:293-317 | on the lines themselves: a line that assigns the key is rendered anew with its indent, or one line is put in, or a blank, the header and the line follow at the end; every other line stays, comments too |
| ConfigLines.WritePlaced | bcfuzzer/mutator.py:293-317 | a placed write changes one setting or adds one and leaves all the others with their values and in their order |
| ConfigLines.PutThenGet | bcfuzzer/mutator.py:230-240 | the name written reads as the value written |
| ConfigLines.PutKeepsOthers | bcfuzzer/mutator.py:293-317 | every other name reads as before |
| ConfigLines.Misplaced | bcfuzzer/mutator.py:307-316 | outside placed writes, what is read afterwards does not depend on the value written |
| EditedFiles.FilePutGetIff | bcfuzzer/mutator.py:230-317 | on the file's text, put then get holds for every one-line value iff the section's name is one line and the key's first entry is not a bare opener that changes the section, or the section has an entry, or has no header, or is open at the end of the file |
| EditedFiles.ReadsFirstLine | bcfuzzer/mutator.py:230-317 | a placed write of any value is read back as the value's first line, trimmed |
| EditedFiles.ReadsBackIff | bcfuzzer/mutator.py:230-317 | a placed write of a value is read back as the value, trimmed, iff no line break in it is followed by anything but space |
| EditedFiles.FilePut | bcfuzzer/mutator.py:293-317 | a placed write of a one-line value leaves every other setting of the text with its value and in its order |
| Leaves.QuotedText | bcfuzzer/mutator.py:195-204 | any text is written into a TOML file as one line in quotes with nothing to trim |
| JsonTexts.TextRoundTrip | bcfuzzer/mutator.py:195-204 | a reader of JSON strings (section 7 of RFC 8259) gives back the text that was quoted |
| Leaves.TomlLeafReadsBack | bcfuzzer/mutator.py:195-204 | in a TOML file every value written in its place is read back as it was written |
| JsonTexts.TomlTextReadsBack | bcfuzzer/mutator.py:195-204 | so a text written in its place in a TOML file is read back as itself |
| Leaves.IniTextReadsBackIff | bcfuzzer/mutator.py:195-204 | in an INI file a text written in its place is read back, trimmed, iff no line break in it is followed by anything but space |
| ConfigLines.StableKept | bcfuzzer/mutator.py:293-317 | a name with a place that does not depend on the end of the file keeps one through any such write |
| LineSweep.Sweep | bcfuzzer/targets/geth_adapter.py:140-162 | the loop over parsed entries rewrites exactly the lines the cleaning rewrites, and counts exactly the lines that changed |
| LineSweep.SweptSettings | bcfuzzer/targets/geth_adapter.py:143-161 | re-parsing the rewritten lines gives the same settings with only the cleaned values replaced |
| LineSweep.SweptLines | live_node_geth.py:249-270 | an entry with a fix is rendered anew with its indent, key and separator in its place, and every other line stays |
| LineSweep.SweepIdempotent | bcfuzzer/targets/geth_adapter.py:135-162 | a second sweep changes nothing |
| Sanitizer.CleanSettles | live_node_fisco.py:904-919 | a cleaned value is trimmed and cleaned to itself |
| Sanitizer.CleanOneLine | live_node_fisco.py:904-919 | the cleaned value of a one-line value is on one line |
| Sanitizer.DomainsHold | bcfuzzer/targets/fisco_adapter.py:102-119 | afterwards every ruled entry that is not exempt holds a numeral in its bounds, a boolean word, or a quoted string |
| Sanitizer.SanitizedLookup | bcfuzzer/targets/fisco_adapter.py:102-119 | what every name reads as after sanitizing, ruled or not, exempt or not |
| Sanitizer.SanitizeTwice | bcfuzzer/targets/geth_adapter.py:135-162 | sanitizing its own output reports 0 changes |
| CleanedValues.SanitizedBecomes | live_node_geth.py:234-242 | which value every name reads as afterwards: a number in bounds is kept, one outside becomes the nearer bound, and what is no number the default; a boolean word keeps its truth value; a quoted text stays; names without a rule or exempt read as before |
| CleanedValues.UnquoteAround | live_node_fisco.py:904-905 | white space, double quotes and then single quotes around a value do not count |
| CleanedValues.LowerIs | live_node_fisco.py:914-914 | letters are compared without their case |
| Adapters.GethTableSound | live_node_geth.py:69-80 | the bounds are ordered and the defaults lie in them |
| Adapters.FiscoTableSound | live_node_fisco.py:93-107 | the same for the fisco tables |
| Adapters.SplitItemPath | bcfuzzer/mutator.py:289-291 | splitting at the last dot undoes joining, for keys without a dot |
| Adapters.WrittenValues | bcfuzzer/targets/geth_adapter.py:124-130 | after all writes each scheduled name reads as its last value and every other name as in the base |
| Adapters.ScheduledReadsBack | bcfuzzer/targets/geth_adapter.py:113-162 | after any number of writes into stable places and sanitizing, a scheduled item reads as its last value, even outside its bounds, iff it is not under the quoting rule or its value is in quotes |
| Adapters.OneReadsBackIff | bcfuzzer/targets/geth_adapter.py:113-162 | end to end for the one mutation a node is given: all values that survive the sanitizer read back from the delivered file iff the name can be placed in the base file |
| Adapters.UnscheduledReads | bcfuzzer/targets/geth_adapter.py:113-162 | every name not scheduled reads as in the base, cleaned if it is ruled and not exempt |
| Adapters.UnscheduledBecomes | bcfuzzer/targets/geth_adapter.py:113-162 | so a name of the base file that is not scheduled is delivered as it was, or as the value its rule makes of it |
| Adapters.ApplyMutations | bcfuzzer/targets/geth_adapter.py:113-133 | the target file holds the lines that OneReadsBackIff and ScheduledReadsBack speak of, each value formatted as a TOML leaf, written and sanitized, every name reads as its rule makes of the written value, and no other file changes; fails exactly when neither target nor base exists |
| Adapters.SanitizeNode | bcfuzzer/targets/fisco_adapter.py:91-122 | in both files every name reads as its rule makes of what it read before, the count is the sum over both, and a count of 0 leaves the disk as it was |
| TomlPatches.MatchIff | targets.py:675-675 | the line pattern for a key matches exactly the lines that assign that key |
| TomlPatches.TomlPutLaw | targets.py:661-684 | on lines, one setting changed or added, all the others kept in their order, for any file |
| TomlPatches.TomlLinesKept | targets.py:661-684 | on the lines themselves: a line that matches the key is rendered anew, or one line is put in, or the section follows at the end, after a blank line unless the last one is blank; every other line stays |
| TomlPatches.TextPutLaw | targets.py:661-684 | the same for the text that is split, edited and joined |
| TomlPatches.TextIdempotent | targets.py:661-684 | setting the same value twice leaves the text that setting it once left |
| TomlPatches.SetTomlScalar | targets.py:661-684 | the text is split, the scan with its running section and insertion point makes exactly that edit, and the lines are joined |
| TomlPatches.PatchedReads | targets.py:622-626 | after all patches, each on the text the one before left, each patched path reads as its last patch and every other as before |
| TomlPatches.ApplyPatches | targets.py:622-626 | the loop that rebinds the text gives the text the law is about |
| YamlPaths.SetIffSettable | bcfuzzer/mutator.py:123-155 | a set succeeds exactly on paths whose containers can be descended into and whose indexes are in range |
| YamlPaths.GetAfterSet | bcfuzzer/mutator.py:325-334 | get after set returns the value |
| YamlPaths.SetTwice | bcfuzzer/mutator.py:123-155 | a second set overwrites the first |
| YamlPaths.SetElsewhere | bcfuzzer/mutator.py:123-155 | paths that diverge from the written one read as before |
| YamlPaths.GetAfterDelete | bcfuzzer/mutator.py:146-150 | a deleted dictionary member reads as absent |
| YamlPaths.DeleteElement | bcfuzzer/mutator.py:146-148 | deleting a list element closes the gap |
| YamlPaths.DeleteElsewhere | bcfuzzer/mutator.py:123-150 | deleting a dictionary member leaves what is read along diverging paths |
| YamlPaths.DeleteBelow | bcfuzzer/mutator.py:123-155 | deleting below a place that holds something is deleting in what it holds |
| YamlPaths.DeleteBelowScalar | bcfuzzer/mutator.py:141-150 | below a scalar a deletion changes nothing, and descending raises |
| YamlPaths.PositionIs | bcfuzzer/mutator.py:131-132 | a part names a list element from the front, or from the end by a negative number |
| YamlPaths.IntOfDigits | bcfuzzer/mutator.py:135-139 | digits, with a sign or without one and with space around them, stand for their number |
| YamlPaths.UnderscoreBetween | bcfuzzer/mutator.py:135-139 | an underscore between two numerals changes nothing |
| YamlPaths.NestedIsSetIff | targets.py:631-644 | where set_nested_value succeeds, it sets what _set_dotted_path sets iff the path is settable for the latter |
| YamlPaths.NestedIffNestable | targets.py:631-644 | set_nested_value succeeds exactly where numbers lead to list elements that are there and names to dictionary members |
| YamlPaths.IndexIff | targets.py:634-635 | a part is an index when it shows a number that is not negative |
| YamlPaths.NestedDiffers | targets.py:631-644 | with a negative number below a missing member one succeeds and the other raises |
| ConfigFiles.ConfigEditor.Snapshot | bcfuzzer/mutator.py:216-219 | only the first content of a path is kept, and None for a file that is not there |
| ConfigFiles.ConfigEditor.WriteValue | bcfuzzer/mutator.py:244-250 | the file holds the edited lines; the original is backed up first; nothing changes when it raises |
| ConfigFiles.ConfigEditor.EditTree | bcfuzzer/mutator.py:252-275 | a structural operation saves, keeps or raises, with the original backed up first |
| ConfigFiles.ConfigEditor.Rollback | bcfuzzer/mutator.py:220-226 | the disk is as it was when the backups were last empty, and the backups are empty |
| ConfigFiles.MutateAndRollback | bcfuzzer/mutator.py:216-275 | any sequence of edits over any files, failed ones included, followed by a rollback, leaves the disk unchanged |
| Pristine.NodeFiles.SnapshotPristine | bcfuzzer_campaign.py:199-210 | every controlled node's files are captured, missing ones as missing |
| Pristine.NodeFiles.RestorePristine | bcfuzzer_campaign.py:212-219 | the node's files are those captured and no other file changes |
| Pristine.NodeFiles.ApplyPlacements | bcfuzzer_campaign.py:221-259 | a completed round leaves every node that is not normal and has mutations with its start files and these mutations applied; all other nodes and files are as they were, also when the round ends early |
| Pristine.NodeFiles.ApplyRounds | bcfuzzer_campaign.py:212-259 | after any number of rounds each node has its start files with the mutations of the latest round that touches it, and one that no round touches has the files it had |
| Pristine.NoTrace | bcfuzzer_campaign.py:199-259 | rounds before a node's last step leave no trace in it |
| Mei.MeiState.RecordAdmission | bcfuzzer/mei.py:37-53 | the three maps stay exactly what the recorded verdicts say: explored pairs, one admitted pair for each that Python tells apart, and rejection counts |
| Mei.MeiState.StatusFor | bcfuzzer/mei.py:57-63 | inconsistent iff something was admitted, otherwise consistent iff the rejected pairs have at least ten different texts |
| Mei.TextsCountPairs | bcfuzzer/mei.py:46-63 | where equal texts are equal pairs and the reverse, among the rejected ones, the texts are as many as the pairs |
| Mei.TextsAndPairsDiffer | bcfuzzer/mei.py:40-52 | 1 and "1" are two pairs with one text, 1 and True one pair with two texts |
| Mei.MeiState.RejectedCount | bcfuzzer/mei.py:72-73 | the number of different texts of an item's rejected pairs |
| Mei.RejectKeyIff | bcfuzzer/mei.py:40-40 | a text tells the rule and the text of the value apart |
| Values.KeyIff | bcfuzzer/mei.py:46-53 | values that Python holds equal, True and 1 among them, are one key, and others are not |
| Values.StrIs | bcfuzzer/mei.py:40-40 | the text of a value: None, True and False by name, numbers as decimals, texts as they are |
| Values.EqualIff | bcfuzzer/mutator.py:97-97 | values are equal when they are alike or the same number, True being 1 |
| Mei.MeiState.IsExplored | bcfuzzer/mei.py:78-79 | true iff some verdict was recorded for the item, the rule and an equal value |
| Mei.MeiState.StatusCounts | bcfuzzer/mei.py:65-70 | for each status the number of catalog items that have it, together the whole catalog |
| Mei.StatusesAddUp | bcfuzzer/mei.py:65-70 | every item is counted under exactly one status |
| Mei.ConsistentIff | bcfuzzer/mei.py:57-63 | an item is inconsistent iff a verdict admitted one of its pairs, and consistent iff none did and ten different texts of it were rejected |
| Mei.StatusForward | bcfuzzer/mei.py:57-63 | status only moves forward along unexplored, consistent, inconsistent |
| Mei.RepeatedRejection | bcfuzzer/mei.py:61-61 | rejecting a pair again never changes the status |
| Mei.OrderIndependent | bcfuzzer/mei.py:37-79 | two logs with the same multiset of verdicts give the same explored and admitted sets, rejection counts and status |
| Mei.RejectedIff | bcfuzzer/mei.py:50-52 | a text is among the rejected ones iff its count is positive |
| Items.GeneratesIff | bcfuzzer/mutator.py:51-116 | drawing values for an item never raises iff an enum item has members, a number item has a number to start from, and every dangerous value of a nested item can be made a dictionary |
| Items.FaithfulIff | bcfuzzer/mutator.py:341-372 | the exact condition on an item under which every fresh candidate is reported as proposed, over everything generate_value can return for any content of the file |
| GeneratedValues.FlagRules | bcfuzzer/mutator.py:55-58 | set to the one or the other, or to the opposite of what it was |
| GeneratedValues.StartIs | bcfuzzer/mutator.py:72-72 | the number that stepping starts from: the current one, or what int() makes of the default |
| GeneratedValues.FixedNumbers | bcfuzzer/mutator.py:64-71 | a bound, 0 or -1, whatever the current value |
| GeneratedValues.SteppedNumbers | bcfuzzer/mutator.py:73-80 | steps of one undo each other, scaling down undoes scaling up and stops at 0 |
| GeneratedValues.SteppingRaises | bcfuzzer/mutator.py:72-80 | stepping and scaling raise exactly when there is no number to start from |
| GeneratedValues.DangerousNumbers | bcfuzzer/mutator.py:61-63 | a dangerous value, or the current one when there are none |
| GeneratedValues.SwitchRule | bcfuzzer/mutator.py:97-97 | another member where there is one, else any; it raises without members |
| GeneratedValues.ChoiceRules | bcfuzzer/mutator.py:92-96 | a text that is no member; or a dangerous value, or a member where there are none |
| GeneratedValues.TextRules | bcfuzzer/mutator.py:82-88 | the empty text, 4096 times the letter x, or a text of no format |
| GeneratedValues.DeleteMember | bcfuzzer/mutator.py:115-115 | a dictionary that names one of the nested members, or `type` |
| GeneratedValues.ReplaceMember | bcfuzzer/mutator.py:107-114 | the same with the value that replaces the member's |
| GeneratedValues.SwitchVariant | bcfuzzer/mutator.py:105-106 | a member that is a dictionary, or the current value |
| GeneratedValues.DangerousVariant | bcfuzzer/mutator.py:101-104 | a dangerous value made a dictionary; without dangerous values, a variant |
| GeneratedValues.DangerousRaises | bcfuzzer/mutator.py:104-104 | it raises exactly when a dangerous value is neither a dictionary nor an empty text or list |
| GeneratedValues.ListRules | bcfuzzer/mutator.py:98-99 | an operation on a list is itself the value |
| GeneratedValues.RulesOf | bcfuzzer/mutator.py:35-44 | the rules of each kind of item |
| Plans.PlanProposes | bcfuzzer/scheduler.py:143-186 | every mutation of a plan is an untried candidate or an admitted pair of an item that was the least explored or inconsistent |
| EndlessTrials.NeverRepeatsIff | bcfuzzer/scheduler.py:143-186 | for any given scheduler: in every run it can produce a pair proposed in two rounds was admitted before the second, iff every item that can be reached is faithful or no node is controlled |
| Runs.RepeatIsAdmitted | bcfuzzer/scheduler.py:102-114 | on such a catalog a pair that is never admitted is proposed in at most one round |
| Runs.FreshRoundsBounded | bcfuzzer/scheduler.py:102-114 | on such a catalog the rounds that try something new are at most as many as the candidates |
| EndlessTrials.FreshRoundsBoundedIff | bcfuzzer/scheduler.py:102-114 | for any given scheduler: there is a bound on the rounds of a run that try something new, iff every item that can be reached is faithful or no node is controlled |
| EndlessTrials.TriedForever | bcfuzzer/scheduler.py:143-186 | otherwise that scheduler has a run for every n, of one round after the other from the end of the exploration phase, that tries one pair afresh in n rounds though it is never admitted |
| EndlessTrials.ExplorationPlannable | bcfuzzer/scheduler.py:143-186 | and the exploration rounds before it, which record nothing when they raise, can be planned |
| Runs.RunReaches | bcfuzzer/scheduler.py:121-139 | no run tries an item that always raises when its candidates are drawn, or one behind such an item in path order |
| Runs.ExplorationIsEven | bcfuzzer/scheduler.py:121-125 | with one controlled node, all through the exploration phase of any run, explored counts over the catalog differ by at most one |
| Scheduler.TwoLevelScheduler.AdmitConfig | bcfuzzer/scheduler.py:93-95 | the pool gains the configuration once and keeps its order |
| Scheduler.PUnexplored | bcfuzzer/scheduler.py:116-119 | the chance lies in (0, 1] and is 1 exactly for no explored value |
| Scheduler.TwoLevelScheduler.UnexploredCandidates | bcfuzzer/scheduler.py:102-114 | raises only if some draw can; every candidate is untried, and none are left only if each rule can repeat itself and every dangerous value was tried |
| Scheduler.TwoLevelScheduler.PickExplorationItem | bcfuzzer/scheduler.py:121-125 | no item of the catalog has fewer explored pairs, nor as many and a path that a dictionary lists earlier |
| Scheduler.TwoLevelScheduler.PickFuzzingItem | bcfuzzer/scheduler.py:127-139 | the item is inconsistent or the least explored one |
| Scheduler.TwoLevelScheduler.NextRound | bcfuzzer/scheduler.py:143-186 | one plan for every node by its role; exploration proposes untried pairs, fuzzing untried pairs or ones admitted exactly so, and surely an untried one for an item never explored |
| Scheduler.Campaign.ApplyPlacements | bcfuzzer_campaign.py:221-259 | every planned mutation is applied in order, with a new value that mutate_one can report for it, unless generating a value or editing the file raises |
| Scheduler.Campaign.AdmissionPass | bcfuzzer_campaign.py:261-283 | the log grows by exactly the applied mutations with their nodes' verdicts, and the pool by the admitted configurations |
| Plans.TrialAt | bcfuzzer_campaign.py:261-283 | every applied mutation of every node is recorded, with the value reported for it and that node's verdict |
| Runs.PoolIff | bcfuzzer_campaign.py:275-283 | the pool is the default and the configurations of the controlled nodes that some round admitted |
| Plans.ConfigIdInjective | bcfuzzer_campaign.py:281-282 | configurations of different nodes or rounds have different ids |
| Scheduler.Campaign.PlayRound | bcfuzzer_campaign.py:221-283 | a completed round extends the run by the round as planned, applied and judged, and the run stays one the scheduler can produce; a round that raises leaves it as it was |
| Scheduler.CampaignIsSafe | bcfuzzer_campaign.py:261-283 | after any rounds played over a faithful catalog, pairs proposed again were admitted first and the rounds with something new are bounded by its candidates |
| Scheduler.CampaignIsEven | bcfuzzer/scheduler.py:153-161 | with one controlled node, a campaign's index is even over the catalog until its exploration phase ends |
| Seeds.SeedScheduler.PickSeed | bcfuzzer/scheduler.py:190-211 | returns the first allowed usable seed, by count and then by the order of a dictionary on ids, iff at most seven usable seeds come before it, and counts it once |
| Seeds.FewBlocked | bcfuzzer/scheduler.py:203-210 | with at most seven blocked seeds the least allowed seed is always picked |
| Seeds.StarvesIff | bcfuzzer/scheduler.py:203-210 | from fresh counters every allowed seed is run any number of times after enough picks, iff at most seven seeds are blocked |
| Seeds.RunsAtMostOnce | bcfuzzer/scheduler.py:203-210 | with eight or more blocked no seed runs twice, and one that eight blocked ids come before never runs |
| Seeds.RoundRobin | bcfuzzer/scheduler.py:190-215 | from fresh counters pick k is number k modulo n of the allowed seeds as a dictionary lists their ids, and the counters are those of so many laps |
| Seeds.NoneStarves | bcfuzzer/scheduler.py:190-215 | allowed counters never differ by more than the step of one execution |
| Seeds.CountsExecutions | bcfuzzer_campaign.py:285-311 | a counter is its start value plus the step times the executions of its seed |
| Seeds.RunsJoin | bcfuzzer/scheduler.py:190-215 | two runs on one placement, the second from the counts the first left, are one run, so the round robin goes on when a placement comes again |
| Seeds.SeedScheduler.RunSeeds | bcfuzzer_campaign.py:285-311 | one pick for each controlled node from the counts left by the ones before, each adding two, and no other placement's counts change |
| Coverage.ComputeLineCoverage | goc_utils.py:218-250 | the two numbers are the sizes of the union of spans of the included records and of those with a positive count |
| Coverage.LineIff | goc_utils.py:228-243 | a line is spanned exactly when there are no patterns or one is a part of its path, and a record of its file has it between its two ends in either order; it is covered when such a record has a positive count |
| Coverage.CoveredIsSpanned | goc_utils.py:244-249 | covered lines are among the spanned ones, so covered never exceeds total |
| Coverage.OnlyMembersMatter | goc_utils.py:224-243 | neither the order nor the repetition of records matters |
| Coverage.MoreRecords | goc_utils.py:218-250 | appending records never lowers either number |

## Left out

- YamlPaths.SetIffSettable: trees are values; update in place and sharing of subtrees between paths are not captured, nor are digits other than 0 to 9 in a path.
- YamlPaths.NestedIsSetIff: a number that ends a path at a dictionary adds an integer key in the code; keys are strings here.
- What list operations do to a list (`_apply_list_op`), YAML parsing and dumping: a structural edit is an arbitrary function of the file's text.
- ConfigFiles.ConfigEditor.WriteValue: files are text; decoding of bytes, replacement of undecodable ones and carriage returns inside line ends are not modelled.
- Pristine.NodeFiles.ApplyPlacements: an adapter is an arbitrary function of a node's own files; nodes share no file, and geth, which copies a base file in every round, is `Adapters.ApplyMutations` instead.
- Adapters.ScheduledReadsBack: for several names, each with a place that no other write can take; for one name the exact condition is `Adapters.OneReadsBackIff`.
- Adapters.ApplyMutations: drawing a value that was not forced is part of `Items`, not of this method, and a fisco item's own choice of file is not modelled.
- TomlPatches.TextPutLaw: section names and written values hold no line break, which is so for the paths of the tables and for JSON.
- Leaves.TomlLeafReadsBack: floats are not modelled, and the repr of a list or dictionary is one line.
- JsonTexts.TextRoundTrip: characters are Unicode scalar values; a lone surrogate in a text is not modelled.
- The chainmaker and aptos adapters and sanitizers, and the baseline mutators.
- Which strings `int(text, 0)` accepts; the sanitizers are proved for every reader that reads back decimals.
- IdleWindow.ComputeBaseline: timeouts that are not numerals are not modelled, nor is the time stamp of the baseline.
- Reports.ReportBook.Report: keys of a detail that the report overwrites with its own (node, occurrences, last_round, placement) are kept apart from them.
- Reports.SignatureInjective: nodes are numbers; a failure without a node is not modelled.
- Items.FaithfulIff: float items are not modelled, the names of nested members contain no quotes, and a dangerous value of a nested item that is a list of pairs counts as no dictionary.
- Mei.MeiState.RecordAdmission: values are None, integers, booleans, strings, and lists or dictionaries by their repr; floats are not modelled.
- EndlessTrials.NeverRepeatsIff: the paths of a catalog are distinct, and rounds complete or record nothing; a probe that raises in the middle of an admission pass is not modelled.
- Probabilities of random choices; a choice is any member of its pool.
- `placement_hash` and other hashes: a placement's hash is an arbitrary key.
- Seeds.SeedScheduler.PickSeed: seed ids are distinct, a precondition is an arbitrary predicate of the seed, and a placement without picks has no entry.
- Loading and saving of state as JSON, process control, sockets, remote calls, signing and hashing.
- Coverage.ComputeLineCoverage: starts from parsed records; the per-line pattern is not modelled.
