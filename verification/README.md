# aisb: verified model of its algorithms and protocols

aisb is an operations command line for Docker hosts. Under its plumbing lie a number of algorithms and state machines
whose behaviour over every input matters more than any single call. This project models them in Dafny and proves what
they keep, what they undo and when they are exact. `dafny verify dfyconfig.toml` checks the whole project.

The world outside a component is a value or a parameter: the Docker daemon is a record of maps, a database answers
selections and projections, a hash and a signature are functions, regular-expression classes and white space are
predicates, and outcomes of commands, hosts, deadlines and failures are given by a world that may answer anything.

Where the code works by changing things in place, the model does too: classes and loops, each method proved equal to
the function that specifies it, and the results stated about those functions.

## The components

- **YAML emitter and reader** (`Yaml*.dfy`). The block emitter, the cursor-driven reader that rewrites its own lines
  for `- - x` and `- key:`, and the round trip. `loads(yaml(v)) == v` is proved for every nested list and dict over a
  safe fragment stated on the strings. The emitter's documentation promises quotes whenever plain style could be
  misread; the code does not keep that for `-` in a list, `1.` or a trailing blank, nor does it quote keys such as
  `null` or one that ends in a line break. A double-quoted text with an inner `"` can lose what follows a `#` or, in a
  list, be split at a `:` followed by a blank (the comment stripper and the key splitter do not know `\"`), and one
  with a `:`, a blank and a `!`, `&` or `*` is rejected as a tag. Quoted keys are written in ASCII, unlike values, and
  the reader does not join the surrogate pair of a character beyond 16 bits. For plain and for quoted strings in a
  list, for both behind a key, and for plain and for quoted keys, the exact conditions are proved, both ways. Of every
  text it is proved that the reader keeps its promise to reject what it does not support: anchors, aliases, tags and
  merge keys on any line of the first document, further documents, and keys that a mapping has twice.
- **Undo journal** (`Session*.dfy`). What each change records before it happens and what a rollback does with the
  records, over arbitrary histories, refused ops, unrecorded writes and failing steps. After a rollback whose steps
  all succeed, containers and networks are exactly the baseline's; volumes are so if and only if a condition on the
  journal holds (`VolumesRestorable`), which anonymous volumes and containers that mount later volumes can break: a
  container removed with its volume and made anew without one is already there for the rollback, so the captured
  volume is not put back, and is lost although every step is done. The oldest backup decides a volume's contents,
  while the newest record decides a recreated container's image and a recreated network's driver, which is therefore
  the one the network last had. A volume has the driver it last had until somebody asked for it in its absence, and a
  volume that is not made anew comes back whole, also when it went with its container. Failed steps are
  marked done all the same and are never replayed. After a rollback whose steps all succeeded a second one changes
  nothing, whatever the first could not restore.
- **Runbook engine** (`Runbook*.dfy`). Parsing, one pass with guards, retries and approvals, and every sequence of
  run, approve and resume. Approvals guard the `success` steps behind them; a refusal is final only once the run has
  moved past the approval, for until then a second answer replaces the first. What a pass does with a step is stated
  by the outcomes of the steps before it and by the attempts of its command, and over every history a saved status is
  shown to be true: done commands had a successful attempt, and a run over as failed has a step that failed for good.
- **Audit log** (`Audit*.dfy`). The hash chain with signatures and anchors, reading the last hash through a growing
  tail window, and concurrent writers in threads and processes. The anchor result names a digest collision instead of
  assuming there is none. Acceptance is characterised record by record and anchor by anchor, and whatever reason a
  rejection gives is true of what it points at. Anchors for a negative number of records are never looked at.
- **FK-complete subsets** (`Subset*.dfy`). Downward and upward worklists to a fixpoint over an abstract database, and
  the export. The selection is exactly what is reachable from the samples, hence the least closed one, whatever the
  order of the worklist and with cyclic foreign keys; it is also stated on rows and foreign keys alone: children of
  sampled rows downward, then references upward. A table that the topological order leaves out is never exported.
  A sampled root without a primary key is selected by its whole row, so where nobody refers to it a row with a null is
  never selected.
- **Fleet selectors** (`Selector*.dfy`). Tokens, atoms, and computed groups that are selectors themselves; what a
  selector selects is stated of its text.
- **TCP reassembly and HTTP framing** (`Reassembly*.dfy`, `Http*.dfy`). Reassembly is exact if and only if no 2^32
  boundary lies between the starts of the kept segments; of two segments with one number the first is kept, so a
  longer retransmission can lose its end, and it is said when nothing is lost. Parsing undoes sending for any list of
  messages in which only the last announces a body that it does not have. A body left out is such a case for an answer
  to HEAD that announces chunks, for the code asks whether there was a HEAD request only where it looks for a length:
  the next start line is then read as the size of a chunk, and the parser raises an error; and for a status like 304
  that announces a length. Lengths and chunk sizes below zero are read as the code reads them, with offsets of either
  sign: it is proved exactly when a turn of either loop ends beyond where it began, a message of 26 bytes is read
  again at every turn for ever, and so is a chunk of size -6. The loops are therefore modelled with a bound on their
  turns; where no number takes back its own line or head they end within as many turns as there are bytes, and an
  outcome once reached stays.
- **mysql client scan and SQL literals** (`Mysql*.dfy`). The scan finds the first client command outside quotes and
  comments, both defined on the text, and reports nothing exactly when there is none under either reading. A literal of
  the printer never changes what the scan sees around it.
- **Docker output frames** (`Demux.dfy`), **rolling fan-out** (`FanOut.dfy`), **tunnel pool** (`TunnelPool.dfy`).
  `close` takes no host's lock: it can leave a live tunnel if and only if, when it begins, a thread is inside `get`
  and not just about to store a tunnel that has died.
- **Incident analysis** (`Incident.dfy`). The closure over cyclic dependencies, roots and blast radius. Whatever the
  dependencies, the root cause reported is the container that failed first; a root that depends on itself is in its
  own blast radius.
- **Trend lines** (`LeastSquares.dfy`), over the reals.

## Model

| member | source | states |
|---|---|---|
| YamlScalar.IntReadsBack | src/aisb/render.py:81-82 | the text of every integer is read back as that integer |
| YamlScalar.UnescapeUndoesEscape | src/aisb/yamlish.py:101-120 | unescaping undoes JSON escaping for every string; in ASCII it fails exactly on strings with characters beyond 16 bits |
| YamlScalar.QuotedTerminates | src/aisb/yamlish.py:123-136 | the closing quote found is the one after the escaped text, never one inside it |
| YamlScalar.QuotedReadsBack | src/aisb/yamlish.py:65-72 | a scalar in double-quoted form is read back for every string whatsoever; in ASCII, exactly without characters beyond 16 bits |
| YamlScalar.SingleQuotedReadsBack | src/aisb/yamlish.py:73-76 | the single-quoted form of any string, its single quotes doubled, reads back as it |
| YamlScalar.CodesRead | src/aisb/yamlish.py:98-120 | every character is read from its code in eight hex digits, and in four or two where those are enough |
| YamlScalar.NamedEscapesRead | src/aisb/yamlish.py:95-120 | the escapes by name are exactly those eighteen, each read as its character |
| YamlScalar.KeywordsRead | src/aisb/yamlish.py:82-87 | which texts are null, true and false: those words and no others |
| YamlNumbers.IntsAre | src/aisb/yamlish.py:14-14 | the reader takes for integers exactly a sign, and 0 or digits and underscores that do not start with 0 |
| YamlNumbers.FloatsAre | src/aisb/yamlish.py:15-15 | it takes for floats exactly what splits into a sign, digits and underscores, a point and digits, and an exponent, with digits in front or behind the point |
| YamlNumbers.IntsRead | src/aisb/yamlish.py:88-89 | an integer is read as the number of its digits, underscores passed over, with a plus sign or without |
| YamlNumbers.SingleQuotesEnd | src/aisb/yamlish.py:123-136 | a single-quoted text is taken to end exactly at the quote that is not doubled |
| YamlLines.StripComment | src/aisb/yamlish.py:22-33 | the loop over characters and quotes cuts exactly where the scan of the text says |
| YamlLines.Unescape | src/aisb/yamlish.py:101-120 | the index loop gives the text that the escapes stand for, or fails on exactly the bad ones |
| YamlLines.Unterminated | src/aisb/yamlish.py:123-136 | the index loop finds whether the quote is closed at the end of the text |
| YamlLines.Lines.NextSignificant | src/aisb/yamlish.py:42-56 | the next line with content, its indent, and the end of the first document |
| YamlLines.Lines.Block | src/aisb/yamlish.py:305-315 | object state after reading a block equals the specified cursor and rewritten lines |
| YamlLines.Lines.ValueAfter | src/aisb/yamlish.py:318-329 | the value after a key or dash, nested or in line, and the cursor after it |
| YamlLines.Lines.Mapping | src/aisb/yamlish.py:332-351 | entries in order, duplicate keys and bad indentation rejected, cursor and lines as specified |
| YamlLines.Lines.Sequence | src/aisb/yamlish.py:354-386 | items in order, nested dashes and keys read from the line the reader re-indents |
| YamlLines.Lines.Item | src/aisb/yamlish.py:363-386 | one item, with the line rewritten in place when a sequence or mapping starts in it |
| YamlLines.Loads | src/aisb/yamlish.py:389-398 | the whole reader as an object equals the functional reader, errors included |
| YamlReader.BlankedWeighsLess | src/aisb/yamlish.py:368-382 | re-indenting a line leaves less text to read, so the rewriting reader terminates |
| YamlRejects.CheckFindsMarks | src/aisb/yamlish.py:59-62 | the check for anchors, aliases, merge keys and tags fails on exactly the texts with such a mark behind dashes or behind a colon and blanks |
| YamlRejects.AnchorsAndTagsAreRejected | src/aisb/yamlish.py:332-386 | no text is read in which a significant line of the first document has such a mark, however lines were rewritten on the way |
| YamlRejects.FurtherDocumentsAreRejected | src/aisb/yamlish.py:389-398 | no text is read in which a marker at the start of a line has content before and after it |
| YamlRejects.KeysAreDistinct | src/aisb/yamlish.py:344-346 | no mapping read from any text, at any depth, has a key twice; true and 1 are one key |
| YamlRejects.ErrorsNameLines | src/aisb/yamlish.py:305-398 | every error names a line of the text: one with something on it, with a mark if it is about one, or a document marker |
| YamlComments.CommentsAreCut | src/aisb/yamlish.py:22-33 | a comment is cut off at exactly the first `#` that comes first or behind a blank, outside quoted strings as defined on the line |
| YamlEmitter.Emit | src/aisb/render.py:90-115 | the recursive emitter with its list of lines prints the specified text |
| YamlEmitter.EmitEntries | src/aisb/render.py:96-103 | one text for each entry, in order |
| YamlEmitter.EmitItems | src/aisb/render.py:107-114 | one text for each item, in order |
| YamlPlain.PlainStrings | src/aisb/render.py:73-87 | a string goes out without quotes exactly if its characters are harmless, it is no number and no word with a meaning, and no colon in it ends a key |
| YamlPlain.NumbersAre | src/aisb/render.py:85-85 | what looks like a number is exactly what splits into a sign, digits, a fraction and an exponent |
| YamlPlain.ReservedWords | src/aisb/render.py:84-84 | the words always quoted are those nine, in any capitals |
| YamlPlain.PlainKeys | src/aisb/render.py:72-98 | a key goes out without quotes exactly if it starts with a letter or underscore and goes on in word characters, dots and hyphens |
| YamlDocument.YamlIsLines | src/aisb/render.py:90-115 | the text of a nested value, with the leading blanks of a nested block cut off after a dash, is the indented lines of its layout |
| YamlDocument.LinesOfYaml | src/aisb/yamlish.py:37-40 | the reader splits the emitter's text into exactly the lines of the layout |
| YamlRoundTrip.ReadBlock | src/aisb/yamlish.py:305-386 | reading a block's lines, followed by anything less indented, gives the value and leaves the cursor right behind it |
| YamlRoundTrip.ReadBlockItem | src/aisb/yamlish.py:368-381 | a nested block in an item is found at the column where the reader blanks out the dash |
| YamlDocument.LoadsUndoesYaml | src/aisb/yamlish.py:389-398 | every list and dict whose leaves and keys read back comes back whole, however nested |
| YamlSafe.RoundTrip | src/aisb/render.py:90-115 | loads undoes yaml for every list and dict over the safe fragment |
| YamlSafe.ScalarReadsBackExactly | src/aisb/render.py:76-87 | a string scalar comes back if and only if it is not plain with a trailing blank or a number to the reader |
| YamlMisread.PlainItemComesBackExactly | src/aisb/render.py:84-87 | a plain string in a list comes back if and only if it has no trailing blank or break, is no dash and no number to the reader |
| YamlMisread.MisreadStrings | src/aisb/render.py:90-91 | three strings that go out plain and come back as something else, against the promise of the emitter |
| YamlMisread.PlainKeyComesBackExactly | src/aisb/render.py:97-102 | a key that goes out plain comes back if and only if it ends in no line break and is no null or boolean word |
| YamlQuoted.PrefixIsNoScalar | src/aisb/yamlish.py:123-136 | no beginning of a quoted text is itself a text that reads back |
| YamlQuoted.QuotedItemComesBackExactly | src/aisb/yamlish.py:22-33 | a quoted string in a list comes back if and only if the comment scan gets through its text, nothing in it looks like a tag and no key is found in it |
| YamlQuoted.QuotedKeyComesBackExactly | src/aisb/render.py:97-102 | a quoted key comes back if and only if it has no quotation mark and no character beyond 16 bits and nothing in it looks like a tag |
| YamlQuoted.MisreadKeys | src/aisb/render.py:97-102 | three quoted keys that do not come back: a quotation mark, a tag, an emoji |
| YamlQuoted.CommentInQuotes | src/aisb/yamlish.py:22-33 | after a first inner quotation mark a blank and `#` start a comment, whatever surrounds them |
| YamlQuoted.KeyInQuotes | src/aisb/yamlish.py:267-280 | after a first inner quotation mark a `:` and a blank end a key, whatever surrounds them |
| YamlQuoted.TagInQuotes | src/aisb/yamlish.py:59-62 | `: !` counts as a tag wherever it stands in a quoted text |
| YamlQuoted.MisreadQuotedStrings | src/aisb/render.py:84-87 | three quoted strings that do not come back from a list |
| YamlEntryValues.PlainValueComesBackExactly | src/aisb/yamlish.py:318-329 | a plain string behind a key comes back if and only if it has no trailing blank or break and is no number to the reader |
| YamlEntryValues.QuotedValueComesBackExactly | src/aisb/yamlish.py:318-329 | a quoted string behind a key comes back if and only if the comment scan gets through its text and nothing in it looks like a tag |
| YamlEntryValues.DashComesBackBehindKey | src/aisb/yamlish.py:318-329 | a dash is lost in a list and comes back behind a key |
| SessionObject.Client.constructor | src/aisb/api/session.py:139-155 | a session starts with the names of the daemon's objects and an empty journal |
| SessionObject.Client.Invoke | src/aisb/ops.py:240-245 | the inverse is recorded before the op, whether or not the daemon then carries the op out; what a record must hold is in the SessionValues rows |
| SessionObject.Client.Step | src/aisb/api/session.py:210-220 | a step's failure is noted and the rollback goes on |
| SessionObject.Client.Undo | src/aisb/api/session.py:260-333 | what one inverse does to the daemon, objects from outside the baseline left alone |
| SessionObject.Client.Rollback | src/aisb/api/session.py:244-275 | the daemon after all steps, and the journal with every record gone over marked done |
| SessionObject.Client.ReplayJournal | src/aisb/api/session.py:257-268 | the journal is replayed newest first and marked as it goes |
| SessionObject.Client.RemoveAddedContainers | src/aisb/api/session.py:249-251 | added containers go with their anonymous volumes |
| SessionObject.Client.RemoveAddedVolumes | src/aisb/api/session.py:269-273 | added volumes go, except those a journaled inverse removes |
| SessionObject.Client.RemoveAddedNetworks | src/aisb/api/session.py:274-275 | added networks go |
| SessionNames.RollbackRestoresNames | src/aisb/api/session.py:244-275 | over every history, a rollback without failed steps leaves exactly the baseline's containers and networks, and its volumes if and only if VolumesRestorable |
| SessionContents.RollbackRestoresContents | src/aisb/api/session.py:90-97 | a baseline volume first changed by a captured removal or restore has its baseline contents: the oldest inverse wins |
| SessionContents.RollbackRestoresRunState | src/aisb/api/session.py:123-127 | a baseline container still there, and never made anew, is after the rollback exactly what it was |
| SessionContents.UnremovedContainersComeBack | src/aisb/api/session.py:123-127 | a baseline container that no op removes is after the rollback exactly what it was |
| SessionContents.RollbackUsesNewest | src/aisb/api/session.py:279-307 | a missing container comes back as its newest record has it: image, named mounts, networks, fresh volumes only where none were captured |
| SessionContents.RemovedContainerComesBack | src/aisb/api/session.py:279-307 | a baseline container removed and never made anew comes back with its image, mounts, networks and running state, the captured volumes by name |
| SessionContents.CapturedVolumesComeBack | src/aisb/api/session.py:293-295 | a baseline volume that went with its container, and of which no other record speaks, comes back with the captured files |
| SessionContents.NoRecordIsReplayedTwice | src/aisb/api/session.py:257-268 | a record gone over is never replayed again, even if its step failed |
| SessionContents.LeftOversAreInUse | src/aisb/api/session.py:269-273 | every volume that a rollback without failed steps leaves from outside the baseline is mounted by a container |
| SessionContents.SecondRollbackChangesNothing | src/aisb/api/session.py:194-198 | over every history, after a rollback without failed steps a second one changes nothing: no step succeeds, and none is tried if the volumes were restored |
| SessionValues.NetworksComeBack | src/aisb/api/session.py:308-317 | over every history, after a rollback without failed steps each baseline network is what it was when it was last there |
| SessionValues.NetworksKeepTheirDriver | src/aisb/api/session.py:61-64 | so a network that nothing made anew with another driver has its baseline driver again |
| SessionValues.RecreatedNetworkKeepsNewDriver | src/aisb/api/session.py:308-317 | removed, made anew and removed again, a network keeps the newer driver |
| SessionValues.NamedVolumesComeBack | src/aisb/api/session.py:318-322 | over every history, a baseline volume that no container owns is there after the rollback, with the driver it last had before anybody asked for it in its absence |
| SessionValues.VolumesComeBack | src/aisb/api/session.py:55-58 | over every history in which a baseline volume is not made anew, nor a container that owned it run anew, it comes back with its driver, and whole if its files did not change |
| SessionValues.RecreatedAsItWas | src/aisb/api/session.py:279-307 | a removed container has its image again, its named volumes and those that went with it mounted by name; without those as many new ones as it had |
| SessionBounds.MountFreeHistoriesAreUndone | src/aisb/api/session.py:244-275 | without mounted volumes every history is undone to exactly the baseline's names |
| SessionBounds.RecreatedContainerKeepsNewImage | src/aisb/api/session.py:281-285 | removed, re-created and removed again, a container keeps the newer image |
| SessionBounds.PutBackVolumeKeepsNewDriver | src/aisb/api/session.py:341-350 | removed, re-created and removed again, a volume keeps the newer driver with the older contents |
| SessionBounds.RecreationGainsAVolume | src/aisb/api/session.py:288-298 | removed without its anonymous volume, a container comes back with a new empty one beside the old, every step done |
| SessionBounds.RemadeContainerLosesAVolume | src/aisb/api/session.py:281-285 | removed with its volume and made anew without one, a session loses a baseline volume, every step done |
| Runbook.Parse | src/aisb/runbooks.py:79-107 | accepted runbooks have distinct names and guards on earlier steps, and rejected ones the fault named |
| Runbook.ParseStep | src/aisb/runbooks.py:83-104 | one entry accepted as written, or rejected for a fault it has |
| Runbook.Attempts | src/aisb/api/runbook.py:216-222 | the attempt it stops at is the first that succeeds or the last one allowed |
| RunbookEngine.Engine.constructor | src/aisb/api/runbook.py:43-56 | a run is saved and executed from all-pending steps |
| RunbookEngine.Engine.Attempt | src/aisb/api/runbook.py:216-222 | the retry loop runs the command as often as specified and reports whether it ended in success |
| RunbookEngine.Engine.Execute | src/aisb/api/runbook.py:183-233 | state in memory, saved state, command log and early stop after a pass are those of the specified turns; what a turn must do is in the RunbookOutcomes rows |
| RunbookEngine.Engine.OneStep | src/aisb/api/runbook.py:187-229 | one turn: skip, ask, sleep or run, and what is saved |
| RunbookEngine.Engine.Resume | src/aisb/api/runbook.py:59-77 | every unfinished step is opened again and the pass is run, unless the run is done |
| RunbookEngine.Engine.Approve | src/aisb/api/runbook.py:80-105 | the first waiting step gets the decision, saved before any resumption; without one nothing changes |
| Runbook.FirstWaiting | src/aisb/api/runbook.py:86-88 | the step found waits, and none is found only when none waits |
| RunbookSafety.GatesGuardSteps | src/aisb/api/runbook.py:183-233 | over every sequence of calls no success step behind an unconditional or success approval ever runs without a recorded yes |
| RunbookSafety.WaitingRunsHaveOneWaitingStep | src/aisb/api/runbook.py:123-133 | a saved run waits exactly when one step does, and that one is shown |
| RunbookSafety.FinishedRunsAreDone | src/aisb/api/runbook.py:230-233 | a run that ends done has every success step done or its failure tolerated |
| RunbookSafety.DoneStepsNeverRunAgain | src/aisb/api/runbook.py:187-189 | a step once done keeps that status and is never executed again by any calls |
| RunbookSafety.PassSettles | src/aisb/api/runbook.py:187-229 | from whatever state it begins in, a pass that goes on has settled every step it has gone over |
| RunbookSafety.GuardsReadSettledSteps | src/aisb/runbooks.py:173-182 | in every pass from every state, a guard on a step's outcome only ever reads an outcome |
| RunbookDenial.DenialStopsThePass | src/aisb/api/runbook.py:202-209 | the pass that meets a refusal fails and runs no later success step |
| RunbookDenial.RefusalIsForGood | src/aisb/api/runbook.py:183-233 | after the run has moved past a refusal no calls run a success step behind it |
| RunbookDenial.SecondAnswerReplacesTheFirst | src/aisb/api/runbook.py:85-96 | while the run still waits, answering twice is the same as giving the second answer only |
| RunbookOutcomes.GuardsReadAsWritten | src/aisb/runbooks.py:94-98 | a guard is read from exactly the text it is written as |
| RunbookOutcomes.GuardsDecide | src/aisb/runbooks.py:173-182 | in any pass a step not yet done is carried out exactly if its guard says so of the steps before it (a failure among them, none, or that step's own outcome), and is else saved as skipped |
| RunbookOutcomes.TurnIs | src/aisb/api/runbook.py:191-229 | a command carried out ends done if some attempt from the first to the last retry succeeds and else failed, is run up to that attempt, and fails the pass unless it may go on with errors; sleeps end done, approvals as answered |
| RunbookOutcomes.FailedIsSomeFailed | src/aisb/api/runbook.py:185-228 | a pass counts as failed exactly if a step it has gone over failed and may not go on with errors |
| RunbookOutcomes.DoneCommandsSucceeded | src/aisb/api/runbook.py:216-229 | over every sequence of calls a done command had an allowed attempt that succeeded in some call, and a failed one a call in which none did |
| RunbookOutcomes.StatusIsTrue | src/aisb/api/runbook.py:230-233 | over every sequence of calls a run over as failed has a step failed for good, and one over as done has none |
| RunbookOutcomes.StepsBehindGatesWereApproved | src/aisb/api/runbook.py:80-105 | over every sequence of calls a success step behind an unconditional or success approval ran only if some call said yes |
| Audit.AnchorsMismatch | src/aisb/audit.py:234-244 | the first flaw among the anchors of one point, by head, key and signature |
| Audit.GroupAnchors | src/aisb/audit.py:193-195 | anchors grouped by their number of records, in order |
| Audit.CheckRecord | src/aisb/audit.py:201-215 | the first thing wrong with a record: link, content, marking, stripped, foreign or bad signature |
| Audit.Beyond | src/aisb/audit.py:221-223 | the largest anchored number of records beyond the log, if any |
| Audit.Verify | src/aisb/audit.py:186-231 | the verdict names the first flaw in log order, or accepts with counts and head exactly when there is none |
| AuditSafety.HeadFixesThePast | src/aisb/audit.py:92-94 | chains with one head have the same contents all the way, or two inputs collide |
| AuditSafety.AnchorPinsThePrefix | src/aisb/audit.py:217-223 | a log accepted with an anchor of n records starts with the same n contents, or the digest collides |
| AuditSafety.AnchorDecidesThePrefix | src/aisb/audit.py:234-260 | with an honest anchor a log is accepted if and only if it is accepted at all and keeps the anchored prefix |
| AuditSafety.TakeAnchor | src/aisb/audit.py:251-260 | an anchor is given exactly for a log that verifies, for its full length and head |
| AuditSafety.SigningIsOneSwitch | src/aisb/audit.py:205-215 | on an intact chain acceptance is exactly: no record marked unsigned, first unsigned records, then records signed with one key |
| AuditSafety.AppendedRecordVerifies | src/aisb/audit.py:116-144 | exactly when a log that verifies still does after one more record, with the same anchors |
| AuditVerdicts.AcceptedExactly | src/aisb/audit.py:186-244 | a log is accepted if and only if every record is linked, signed as it must be and not marked unsigned, and every anchor names the head at its length with the key's id and signature |
| AuditVerdicts.RejectionsAreTrue | src/aisb/audit.py:186-244 | whatever reason a rejection gives is true of the record or anchor it points at |
| AuditTail.TailHasTheLastLine | src/aisb/audit.py:101-107 | a tail with more than one line ends in the last line of the whole file |
| AuditTail.LastHash | src/aisb/audit.py:97-113 | the widened window ends and gives what the whole file gives, for records of any length |
| AuditTail.FileEndsInHead | src/aisb/audit.py:108-113 | on the file of an intact log it is the hash the next record must name |
| AuditWriters.LogFile.Record | src/aisb/audit.py:130-141 | the file becomes that of the log with one record more, linked to its end |
| AuditWriters.EveryInterleavingKeepsOneChain | src/aisb/audit.py:130-141 | any interleaving of calls leaves one valid chain with one record for each call that wrote, each once |
| AuditWriters.SignedCallsKeepTheLogAccepted | src/aisb/audit.py:122-139 | calls that sign with the key of verify keep an accepted log accepted, anchors included |
| AuditWriters.SomebodyCanMove | src/aisb/audit.py:130-141 | no interleaving gets stuck while a call is unfinished |
| Subset.Query | src/aisb/services/subset.py:73-74 | what a query answers: exactly the projections of the matching rows |
| Subset.Picker.Add | src/aisb/services/subset.py:32-36 | the new tuples are those without a null that were not selected, and nothing else is added |
| Subset.Picker.Follow | src/aisb/services/subset.py:71-76 | chunked or not, one foreign key adds all it leads to and only that |
| Subset.Picker.Expand | src/aisb/services/subset.py:69-76 | an entry taken from the worklist is settled: all its foreign keys lead inside the selection |
| Subset.Picker.Close | src/aisb/services/subset.py:55-76 | the worklist ends and the selection holds exactly what is reachable from its seeds, taken from either end |
| Subset.ClosureIsLeast | src/aisb/services/subset.py:69-77 | the closure holds the seeds, is closed, lies in every closed selection that holds them, and is unique |
| Subset.StepsStayInside | src/aisb/services/subset.py:69-76 | every tuple added comes from a finite universe, so cyclic and self-referencing keys terminate |
| Subset.Plan | src/aisb/services/subset.py:39-77 | samples of the roots, closed downward if asked, closed upward: exactly reachable, nothing else; the roots sampled by whole rows are noted |
| Subset.Roots | src/aisb/services/sql.py:695-698 | exactly the tables no other table's foreign key points at |
| Subset.PlanIsReferentiallyComplete | src/aisb/services/subset.py:69-77 | every parent of a selected row by a non-null foreign key is selected |
| Subset.KeylessRootsHaveWholeRows | src/aisb/services/subset.py:46-54 | of a root without a primary key that nobody refers to, only sampled rows without a null are selected |
| SubsetRows.SampleSizeIs | src/aisb/services/subset.py:44-47 | the number of rows sampled is the share asked for, rounded up, at most the limit, and none of an empty table |
| SubsetRows.PlanIsWhatPathsLeadTo | src/aisb/services/subset.py:39-77 | a plan selects exactly what a path leads to: a sampled row, then from child to child by primary key if asked for, then up along references, said of rows and foreign keys |
| SubsetRows.ChildrenAreSelected | src/aisb/services/subset.py:55-68 | with children asked for, the rows of other tables that refer to a sampled row by its key are selected, and their children in turn |
| SubsetRows.OnlyReferencesWithoutChildren | src/aisb/services/subset.py:55-77 | without, every selected row is a sampled one or what a chain of references upward from one leads to |
| SubsetExport.TableRows | src/aisb/services/subset.py:91-102 | exactly the distinct rows any column set selects, each once, whatever the chunks |
| SubsetExport.AddInserts | src/aisb/services/subset.py:104-106 | cutting the rows into statements changes neither rows nor order |
| SubsetExport.Export | src/aisb/services/subset.py:80-112 | exactly the selected rows of the ordered tables are loaded, each once, table after table |
| SubsetExport.ParentsAreLoadedFirst | src/aisb/services/sql.py:684-693 | with acyclic foreign keys between tables every parent row is loaded before any row that refers to it |
| SubsetExport.CyclesHaveNoOrder | src/aisb/services/sql.py:684-693 | with a cycle no order has all parents first, so only then the listed order is taken |
| SubsetExport.OnlyOrderedTablesAreLoaded | src/aisb/services/subset.py:88-90 | a table is loaded exactly when the order has it and it has a selected row |
| Selector.ResolveDenotes | src/aisb/fleet/inventory.py:153-164 | a list of terms evaluates exactly when it has a term and all atoms do, and then to union, intersections and exclusions; which texts give which terms is in the SelectorTexts rows |
| SelectorTexts.TermsAreAsWritten | src/aisb/fleet/inventory.py:19-19 | a text written from any terms, each atom behind its sign with or without a comma before it, is read as exactly those terms |
| SelectorTexts.TextsDenote | src/aisb/fleet/inventory.py:145-164 | a text whose atoms evaluate selects exactly the hosts in the union of what `,` joins, in all that `&` cuts to and in none that `!` or `&!` takes away |
| SelectorTexts.JoinedTerms | src/aisb/fleet/inventory.py:120-126 | the clauses of a computed group, joined by commas, are read as the terms of all clauses |
| SelectorTexts.EveryHost | src/aisb/fleet/inventory.py:130-132 | `all` and `*` are every host |
| SelectorTexts.HostsByGroup | src/aisb/fleet/inventory.py:133-134 | `@GROUP` is the members of the group |
| SelectorTexts.HostsByLabel | src/aisb/fleet/inventory.py:135-137 | `KEY=VALUE` is exactly the hosts whose label matches, a missing label counting as the NUL character |
| SelectorTexts.HostsByName | src/aisb/fleet/inventory.py:138-143 | a pattern is exactly the hosts whose names match it, any other text the host of that name or an error |
| SelectorTexts.AssignedMembers | src/aisb/fleet/inventory.py:120-128 | an assigned group is exactly the hosts that name it, and unknown if none does and it is not a computed one |
| SelectorMeaning.OrderDoesNotMatter | src/aisb/fleet/inventory.py:153-164 | selectors with the same terms in any order evaluate alike |
| SelectorMeaning.SeenOnlyBlocks | src/aisb/fleet/inventory.py:120-128 | the groups being evaluated never change a value, they only block |
| SelectorMeaning.ComputedGroupsAreSelectors | src/aisb/fleet/inventory.py:120-128 | a computed group denotes its own hosts and what its selector denotes, through mutual recursion |
| SelectorMeaning.EvaluatedGroupsDoNotComeBack | src/aisb/fleet/inventory.py:121-122 | a group that evaluates is on no walk of groups that comes back |
| SelectorMeaning.FailingGroupsComeBack | src/aisb/fleet/inventory.py:121-122 | with all names known, a failing group has a walk that comes back |
| SelectorMeaning.CyclesAreReportedExactly | src/aisb/fleet/inventory.py:86-91 | with all names known, evaluation fails if and only if a cycle of groups is reachable, and the error says so |
| Selector.FewerLeft | src/aisb/fleet/inventory.py:124-125 | each computed group entered leaves fewer to enter, so mutually recursive groups terminate |
| SelectorInventory.Inventory.Members | src/aisb/fleet/inventory.py:120-128 | the hosts of a group, assigned or computed, with cycle and unknown-group errors |
| SelectorInventory.Inventory.Atom | src/aisb/fleet/inventory.py:130-143 | all, group, label, glob or host name, with the unknown-host error |
| SelectorInventory.Inventory.Resolve | src/aisb/fleet/inventory.py:153-164 | the set built up term by term is the specified one, errors in the order of evaluation |
| SelectorInventory.Inventory.Regroup | src/aisb/fleet/inventory.py:105-113 | the group's hosts become old plus added minus removed, all else as before; computed groups are refused |
| Reassembly.Reassemble | src/aisb/insights/traffic.py:85-110 | the data joined from first payloads in the order of their distance from the smallest number |
| Reassembly.InOrder | src/aisb/insights/traffic.py:96-96 | all kept numbers, sorted by distance modulo 2^32 from the smallest |
| ReassemblyExact.SameJoin | src/aisb/insights/traffic.py:98-108 | within 2^31 bytes, joining by numbers modulo 2^32 is joining by stream positions |
| ReassemblyExact.AscendingJoin | src/aisb/insights/traffic.py:95-108 | segments joined by ascending position give the covered bytes, each once |
| ReassemblyExact.ReassemblyIsExact | src/aisb/insights/traffic.py:85-110 | for segments of one stream, however overlapping or retransmitted, the result is the covered bytes in order if and only if no 2^32 boundary lies between kept starts |
| ReassemblyExact.GaplessIsTheStream | src/aisb/insights/traffic.py:85-110 | without gap or boundary the result is the stream |
| ReassemblyExact.BoundaryLosesAByte | src/aisb/insights/traffic.py:95-108 | two segments on either side of a 2^32 boundary of which the first is lost |
| ReassemblyWhole.WholeSegmentsComeBack | src/aisb/insights/traffic.py:85-110 | the result is all that any segment holds if and only if there is no boundary between kept starts and every position of a segment is in a kept one |
| ReassemblyWhole.LongestFirstsLoseNothing | src/aisb/insights/traffic.py:85-96 | so it is when of segments at one position the first with data is the longest |
| ReassemblyWhole.LongerRetransmissionLosesItsEnd | src/aisb/insights/traffic.py:85-96 | a retransmission longer than the first segment of its number loses its end |
| HttpFraming.ParseHttp | src/aisb/insights/traffic.py:113-149 | the loop over messages gives the specified list or error, lengths below zero included, or is still running after the turns it was given |
| HttpFraming.ReadChunks | src/aisb/insights/traffic.py:126-137 | the loop over chunks gives the body and where it ends, sizes below zero included, or is still running |
| HttpFraming.ChunkTurnMovesOn | src/aisb/insights/traffic.py:126-137 | exactly when a turn over a chunk ends beyond where it began |
| HttpFraming.MessageTurnMovesOn | src/aisb/insights/traffic.py:116-140 | exactly when a turn over a message ends beyond where it began |
| HttpFraming.ChunkedMessageGoesOn | src/aisb/insights/traffic.py:126-137 | a chunked message ends behind its head where no line behind that, read as a size, takes itself back |
| HttpFraming.ParsingEnds | src/aisb/insights/traffic.py:116-140 | where no size takes back its line and no length its head both loops end within as many turns as there are bytes |
| HttpFraming.MoreTurnsSameOutcome | src/aisb/insights/traffic.py:116-140 | an outcome once reached does not change with more turns |
| HttpHeaders.LineReads | src/aisb/insights/traffic.py:121-121 | a line is read as the header around its first colon, or as a name without a value |
| HttpHeaders.LastValueCounts | src/aisb/insights/traffic.py:121-121 | each name comes once, with the value of its last line |
| HttpHeaders.FirstPlaceStays | src/aisb/insights/traffic.py:121-121 | further lines leave the names where they are |
| HttpHeaders.LastSpellingCounts | src/aisb/insights/traffic.py:122-122 | of several spellings of a name the value of the last decides how the body is read |
| HttpRoundTrip.ChunksComeBack | src/aisb/insights/traffic.py:126-137 | a chunked body is read back wherever it was cut, with chunk extensions |
| HttpRoundTrip.HeadersComeBack | src/aisb/insights/traffic.py:120-122 | headers with distinct names come back in order |
| HttpRoundTrip.BodyComesBack | src/aisb/insights/traffic.py:124-140 | the body comes back for each way of framing it, and the offset is right behind it, unless the head announces a body that is not sent |
| HttpRoundTrip.ParsingUndoesSending | src/aisb/insights/traffic.py:113-149 | the stream of any list of well-formed messages parses to their start lines, headers and bodies, unless one before the last announces a body it does not have |
| HttpRoundTrip.ParsingUndoesSendingExactly | src/aisb/insights/traffic.py:125-140 | where start lines are no chunk sizes that is so if and only if no message before the last announces chunks, or a length the reader does not know to ignore, without having them |
| HttpRoundTrip.StartLineIsNoSize | src/aisb/insights/traffic.py:125-133 | after a head that announces chunks and has none, the next start line is read as a size and raises an error |
| HttpRoundTrip.ChunkedAnswerToHead | src/aisb/insights/traffic.py:125-133 | an answer to a HEAD request that announces chunks, followed by another answer, raises an error |
| HttpRoundTrip.AnnouncedLengthDecides | src/aisb/insights/traffic.py:138-140 | after a message that announces a length of either sign the parser is at the end of its head and that length on |
| HttpRoundTrip.MessageIsReadForEver | src/aisb/insights/traffic.py:138-140 | a message that takes back its own head is read once more at every turn, and the offset stays |
| HttpRoundTrip.FarBelowIsTheBeginning | src/aisb/insights/traffic.py:116-120 | an offset further below zero than the data is long reads what the first turn reads |
| HttpRoundTrip.TwentySixBytesForEver | src/aisb/insights/traffic.py:138-140 | 26 bytes that after every k turns have given k messages at offset 0 |
| HttpRoundTrip.ChunkIsReadForEver | src/aisb/insights/traffic.py:126-137 | a chunk whose size takes back its own line keeps the inner loop running after any number of turns |
| MysqlScan.MysqlClientCommand | src/aisb/services/sql.py:45-75 | the two loops give the first command either reading finds; what a command is stands in the MysqlFinds rows |
| MysqlScan.ScanOnce | src/aisb/services/sql.py:52-74 | the index loop with quote and idle flags is the specified scan |
| MysqlFinds.ScanFindsTheFirst | src/aisb/services/sql.py:52-75 | under either reading the scan gives the first command outside quotes and comments, defined on the text: a long command where a statement starts, a comment with a backslash, or a backslash that does not start the NULL literal; and nothing exactly when there is none |
| MysqlFinds.CommandsAreFound | src/aisb/services/sql.py:45-75 | the answer is the first command of the reading with escapes, or if it has none, of the one without, and none exactly when neither has any |
| MysqlFinds.ShellAndNull | src/aisb/services/sql.py:66-67 | the shell command is reported and the NULL literal is not |
| MysqlScan.LitIsInner | src/aisb/services/sql.py:78-82 | the two replacements of the printer amount to one escape per character |
| MysqlScan.InsideLiteral | src/aisb/services/sql.py:55-58 | under either reading the scan leaves a literal exactly at its end |
| MysqlScan.ScanOverPrefix | src/aisb/services/sql.py:34-74 | text before a quote is scanned the same whatever follows the quote |
| MysqlScan.LiteralsAreInvisible | src/aisb/services/sql.py:45-82 | any two strings in the place of a literal give the same answer; and when that answer is none, exactly |
| MysqlScan.LiteralsInsideQuotesShow | src/aisb/services/sql.py:45-82 | inside double quotes a literal can start a command, so the proviso is needed |
| Demux.DemuxChunks | src/aisb/streams.py:26-39 | frames and ending are those of the joined bytes, wherever they were cut |
| Demux.DecodingUndoesEncoding | src/aisb/streams.py:31-37 | encoded frames come back, followed by what the rest decodes to |
| Demux.CutStreamsAreTruncated | src/aisb/streams.py:38-39 | a stream cut inside a frame gives the frames before it and the number of bytes left |
| Demux.TruncatedMeansLeftOver | src/aisb/streams.py:38-39 | truncated is reported exactly for whole frames followed by bytes that are no frame |
| FanOut.Attempt | src/aisb/fleet/runner.py:138-157 | a host is run again only after a transient failure before its deadline, at most retries times |
| FanOut.ResultIsUnique | src/aisb/fleet/runner.py:138-157 | that determines the result of a host |
| FanOut.RunBatch | src/aisb/fleet/runner.py:177-180 | a batch adds one result for each of its hosts, in host order |
| FanOut.RunAll | src/aisb/fleet/runner.py:160-181 | hosts split into an executed prefix and a skipped suffix; with fail_fast no failure before the last executed batch of the size asked for; without a size nobody is skipped, and with one below zero nothing is run |
| TunnelPool.StepKeeps | src/aisb/fleet/runner.py:37-58 | every step of every thread, and every death of a tunnel, keeps the pool safe |
| TunnelPool.OneTunnelEach | src/aisb/fleet/runner.py:37-51 | over every interleaving of gets a host has at most one live tunnel, stored or about to be by the lock's holder |
| TunnelPool.AtRestLiveTunnelsAreStored | src/aisb/fleet/runner.py:49-51 | with nobody opening, live tunnels are the stored ones |
| TunnelPool.ClosedPoolsAreEmpty | src/aisb/fleet/runner.py:53-58 | after a close that no get overlaps, no tunnel is live |
| TunnelPool.CloseCanMissATunnel | src/aisb/fleet/runner.py:53-58 | from any safe state with a thread inside `get`, not about to store a dead tunnel, a close can end with a live tunnel |
| TunnelPool.CloseMissesExactly | src/aisb/fleet/runner.py:53-58 | a close can leave a live tunnel if and only if such a thread is there when it begins |
| TunnelGets.GetGivesALiveTunnel | src/aisb/fleet/runner.py:37-51 | a get with nobody in its way ends with a live stored tunnel of its host, opened only if there was none, all others left as they were |
| TunnelGets.SomebodyCanWork | src/aisb/fleet/runner.py:37-58 | in every safe state with a thread inside get or close some thread inside can take a step |
| Incident.Closure | src/aisb/insights/incident.py:20-27 | exactly what is reachable by one or more edges, on cyclic graphs too |
| Incident.Reverse | src/aisb/insights/incident.py:38-41 | the edges turned round |
| Incident.ReversedReach | src/aisb/insights/incident.py:38-41 | reachability over the turned edges is reachability backwards |
| Incident.ByTimeInOrder | src/aisb/insights/incident.py:33-33 | the sorted signals are the same signals in time order |
| Incident.FirstBad | src/aisb/insights/incident.py:34-37 | exactly the containers with a critical signal, with the time of the first, in the order of failure |
| Incident.Roots | src/aisb/insights/incident.py:43-47 | exactly the failures none of whose transitive dependencies failed earlier, in order, the first failure in front |
| Incident.Analyze | src/aisb/insights/incident.py:30-68 | failures, roots, blast radius and chain in the order of failure: who depends on the root and failed no earlier; timing alone without dependencies |
| Incident.EveryFailureHasARoot | src/aisb/insights/incident.py:43-47 | every failure is a root or depends on a root that failed before it |
| Incident.RootsAreThereForFailures | src/aisb/insights/incident.py:43-51 | there is a root exactly when something failed |
| Incident.RootCauseIsTheFirstFailure | src/aisb/insights/incident.py:44-62 | the root cause named is the first failure, whatever the dependencies |
| Incident.RootInItsOwnBlastRadius | src/aisb/insights/incident.py:57-63 | the root is in its own blast radius exactly when it depends on itself |
| LeastSquares.FitExists | src/aisb/fleet/metrics.py:68-76 | there is a fit exactly with two points at different times |
| LeastSquares.FitMeetsNormalEquations | src/aisb/fleet/metrics.py:73-78 | the centred formula solves the normal equations |
| LeastSquares.OtherLinesCostMore | src/aisb/fleet/metrics.py:68-78 | the error of any line is that of the fit plus the squares of their difference |
| LeastSquares.FitIsBest | src/aisb/fleet/metrics.py:68-78 | the fit has the least squared error of all lines and is the only such line |
| LeastSquares.SortOrders | src/aisb/fleet/metrics.py:84-84 | the sorted points are the same points, earliest first and latest last |
| LeastSquares.ForecastsAreMade | src/aisb/fleet/metrics.py:81-94 | a forecast is made exactly of three or more points, two of them the least span apart and two at different times; it is flat exactly if the best line does not grow |
| LeastSquares.ForecastIsTheCrossing | src/aisb/fleet/metrics.py:81-97 | for a growing fit the unrounded days are the one moment the line meets the limit, and none are left exactly when it is there already |

## Left out

- YAML reader: block scalars, scalars over several lines and flow collections other than `[]` and `{}` are reported as
  not modelled; floats are kept as their text; the exact error of a missing column is not modelled.
- YamlScalar.QuotedReadsBack: strings have no lone surrogates, so the escapes of a surrogate pair count as a bad
  escape where the code reads two lone surrogates, which are not the character either.
- YAML emitter: values other than what JSON results hold (keys that are no strings), and CSV, tables and templates.
- YamlSafe.RoundTrip: states the document round trip on the safe fragment; outside it the code itself fails, as shown
  for a list of one string and a dict of one entry, where the fragment is exact; floats outside the plain decimal form
  are not treated.
- YamlScalar.UnescapeUndoesEscape: the same holds of the escapes alone.
- YamlLines.Unescape: rejects the escape of a lone surrogate, which the code reads.
- YamlLines.Lines.Block: answers a flow collection other than `[]` and `{}` with "not modelled".
- YamlLines.Lines.ValueAfter: answers a block scalar with "not modelled".
- YamlLines.Lines.Mapping: answers a scalar that goes on over several lines with "not modelled".
- YamlLines.Lines.Item: answers a continued scalar or a flow collection with "not modelled".
- YamlLines.Loads: answers block, flow and multi-line scalars with "not modelled".
- YamlRejects.AnchorsAndTagsAreRejected: the error may be that the text is not modelled, where a marked line is inside a
  block, flow or multi-line scalar or behind one.
- Session: database dumps, stack groups, images, planning mode, fleet hosts (each is the same scope with its own
  baseline), labels and options beyond one value, DNS aliases, capture errors other than a missing object.
- Session comparison: changed objects, image tags and cleanup commands of the snapshot comparison play no part in a
  rollback.
- SessionObject.Client.Undo: knows no database restores and no inverses grouped under one record.
- SessionContents.SecondRollbackChangesNothing: speaks of a first rollback whose steps were all done; after one with
  failed steps it is only known that no record is replayed.
- Runbook: planning, rendering of templates and splitting of command lines (a text renders or not), unknown keys, the
  pattern for names, resuming with a changed runbook, times, prompts and results kept in the state, other exceptions
  out of a command.
- Runbook.Parse: a guard whose step has characters no name may have is rejected as unknown rather than as malformed.
- Runbook.ParseStep: does not model the pattern for names and the check for unknown keys.
- Audit: real SHA-256, HMAC and JSON text (parameters with the contracts stated), errors reading the key during
  verification, the syslog mirror, a crash in the middle of a write, texts that are no records.
- Subset: errors of the database, collations and literals of values, the framing statements and sequence resets of an
  export.
- SubsetExport.ParentsAreLoadedFirst: takes the order that graphlib gives as a parameter with its contract; how
  graphlib finds it is not modelled.
- Selector: sorting and the empty-selection error of select, saving and loading, upsert, the validation of clashing
  names.
- Reassembly: link and network layers of a capture, grouping by connection, first-seen times.
- HttpFraming.ParseHttp: method, path and status are parts of the start line and are not split; trailers of chunked
  bodies are not sent by the modelled sender.
- MysqlScan: the nine names of long commands, Unicode case folding and white space are parameters.
- MysqlFinds.ScanFindsTheFirst: takes it that no quote is white space.
- Demux: decoding to text, JSON lines, tar archives.
- FanOut: threads that finish after their deadline, sleeping between attempts, how many hosts of a batch run at a
  time.
- FanOut.RunAll: with a negative batch size the code runs no host and reports none, which is stated as it is.
- TunnelPool: port forwards, which live and die with their tunnels, and the error Python raises when a table changes
  size while it is being closed.
- Incident: likely causes, the timeline, the text of summaries and postmortems.
- LeastSquares: floating-point rounding, the rounding of reported figures, dates, points without a value.
- Configuration, policies, transport, SSH, the command line, the portal and the exporters: plumbing over unseen peers.
