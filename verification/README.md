# gopit: a verified model of the firewall backend and the connection machinery

This project models the parts of gopit in which several pieces of code have to agree with each other, and proves that
they do. It is Dafny 4.11; `dafny verify dfyconfig.toml` checks all of it.

**The nftables firewall backend** (`internal/agent/nftfw`) is a compiler, a decompiler, a printer, a parser and a state
machine. Logical rules are compiled to expression programs, read back from them, printed to the boot file and parsed
from it; the kernel table may vanish between two calls and is then rebuilt from the file.

- `rules.dfy`: logical rules, tcp/udp twins, the normal form (canonical addresses, twins merged).
- `kernel.dfy`, `emit.dfy`, `meaning.dfy`: the expression machine, the compiler, and what the compiled table does with
  packets; `strays.dfy`: which rules keep to their address family on well-formed packets.
- `decode.dfy`: the decompiler and the kernel round trip.
- `text.dfy`, `conf.dfy`, `bootconf.dfy`, `loadconf.dfy`: the boot file as text, character by character, and its round
  trip; `spelling.dfy`: its literal lines, and what the agent makes of any text.
- `conflict.dfy`: the scan for foreign chains.
- `firewall.dfy`, `runs.dfy`: the API object over kernel and file, and its refinement of a machine on rule lists over whole
  runs; `requests.dfy`: requests and replies in the words of the wire; `ownership.dfy`: foreign boot files;
  `plainruns.dfy`: the one-list machine that plain names and working files leave.
- `golib.dfy`, `witness.dfy`: the pieces of Go's library used, and a proof that the laws assumed of them can be met.

**The connection manager** (`internal/server/nodemanager`) and what hangs on it.

- `manager.dfy`, `closing.dfy`: connect loops, read loops, Drop and Close as a transition system with one program counter
  per goroutine.
- `nodestore.dfy`, `lifecycle.dfy`: the node table, and the steps that take a node from discovery to approval, the
  manager's own included.
- `retrying.dfy`: when a connect loop gives up, and that it tries again otherwise.
- `working.dfy`, `approval.dfy`, `statuses.dfy`: who can still report on a node, what that means for pending and returning
  nodes, and what a stored status says.
- `fanout.dfy`: subscribers, broadcasts and requests.

**Smaller machines**: the log line splitter (`linewriter.dfy`) and the table of followed logs (`streams.dfy`) of the Docker
API, the login limiter (`limiter.dfy`), the SQL dump (`dump.dfy`) and the session recorder (`ttyrec.dfy`).

Loops and objects of the source are methods and classes here, each proved equal to a specification function, and the
results below are about those functions. Concurrent protocols are transition systems whose atomic steps are the locked
sections, channel operations, callbacks and system calls; a run is any schedule of steps. A Go string or byte slice is a
`string` with one `char` per byte. Registers hold little-endian connection-tracking words.

## Where the code and its comments differ

- `nftfw.go:471-473` says that a source restricts a rule to that address family. No family test is compiled, so bytes of
  a packet of the other family can match: 4 bytes within an IPv6 source address, or 16 bytes from the time to live of an
  IPv4 packet on, its protocol among them. `Strays.SourceConfinesFamilyExactly`: a rule keeps the comment's promise on
  all well-formed packets in every company of such rules if and only if it has no source, or no device but lo has its
  name, or its source is an IPv6 address that an IPv4 packet for the rule cannot hold there, because its second octet is
  no protocol number of the rule or its last four are neither the beginning of IPv4 options nor the rule's port.
- `manager.go:82` says that Close stops all connections. A loop past its stop check still lists one afterwards:
  `Closing.ConnectionAfterClose`; `Closing.CloseLastsExactly` says when the comment holds.
- `sqlite.go:330` says that last_seen is updated if the node is online. It is updated whatever the status
  (`NodeStore.Store.SetNodeStatus`).
- `nftfw.go:241` refuses quotes and backslashes for the sake of the boot file's round trip. Control characters pass and do
  not survive it: `LoadConf.ControlNameLost`; `LoadConf.TextRoundTrip` says which names do.
- `client.go:336` returns what is left of a re-sliced parameter, fewer bytes than were taken when they held a newline
  (`LineWriter.Writer.Write`), although an `io.Writer` that takes everything should return the length it was given.
- Deleting a node while its connection comes up, and discovering it again, takes it out of pending with neither a token
  nor an approval: `Lifecycle.RediscoveredWithoutApproval`. `Approval.PendingStaysExactly` and
  `Approval.ReturnSafeExactly` say when that cannot happen.
- A reconcile that meets a connect loop on its way out is lost (`manager.go:203-208` against `217-221`):
  `Manager.LostReconcile`, `Manager.ReconcileServesExactly`.
- `nftfw.go:340-344` calls chains with rules able to shadow. The scan is conservative: it also refuses a foreign chain
  that only accepts (`Conflict.HarmlessChainRefused`).
- `auth.go:47-50` limits failed checks per address. Requests that run at the same time all pass the check before any of
  them fails, so `limit + k - 1` failures fit a window with `k` requests at once: `LoginLimiter.BoundReached`.
- `conf.go:148-150` says that a foreign file is never overwritten. One that the check cannot read is:
  `Ownership.UnreadableForeignReplaced`, `Ownership.ForeignFileKeptExactly`.

## Model

| member | source | states |
|---|---|---|
| Rules.ExpandMerge | internal/agent/nftfw/conf.go:131-142 | merging twins loses nothing: the single-protocol rules and their order are the same before and after |
| Rules.MergeExpand | internal/agent/nftfw/conf.go:47-53 | writing one line or program per protocol and merging again gives the merge of the list itself |
| Rules.MergeIdempotent | internal/agent/nftfw/conf.go:131-142 | merging twice is merging once |
| Rules.MergeIdentityExactly | internal/agent/nftfw/nftfw.go:630-637 | a list is left alone by merging if and only if it has no adjacent tcp/udp twin |
| Rules.SameShapeExpansion | internal/agent/nftfw/conf.go:47-53 | two lists with the same protocols in the same places and the same expansion are equal |
| Rules.NormIdempotent | internal/agent/nftfw/nftfw.go:613-653 | the normal form (canonical addresses, merged twins) is a fixed point |
| Rules.NormAppend | internal/agent/nftfw/nftfw.go:244-246 | appending to what was read back and normalising equals appending to the original list and normalising |
| Rules.MergeSnoc | internal/agent/nftfw/conf.go:131-142 | appending a rule to a twin-free list either completes a twin with its last entry or adds one entry |
| Rules.NormValid | internal/agent/nftfw/nftfw.go:231-247 | the normal form of acceptable rules is made of acceptable rules |
| Kernel.IfnameDataInjective | internal/agent/nftfw/nftfw.go:679-683 | comparing NUL-padded names compares the names, for names the kernel can have |
| Emit.EmitProgram | internal/agent/nftfw/nftfw.go:476-513 | the matches and verdict that emitRule appends for one protocol are the program of that single-protocol rule |
| Emit.EmitRule | internal/agent/nftfw/nftfw.go:474-516 | a rule compiles to the programs of its single-protocol halves, in order |
| Emit.BuildTable | internal/agent/nftfw/nftfw.go:392-430 | apply installs policy, jump, guards and the programs of the expanded list, enabled or not |
| Emit.BuildNorm | internal/agent/nftfw/nftfw.go:421-425 | re-applying the normal form, or the merged form, of a list rebuilds exactly the same kernel table |
| Meaning.NameMatchesExactly | internal/agent/nftfw/nftfw.go:679-683 | the 16-byte compare is equality for names that interfaces can have, and never matches a longer name |
| Meaning.RunOne | internal/agent/nftfw/nftfw.go:474-515 | one compiled rule decides a packet if and only if interface, source bytes, protocol and port all match, and then as its action says |
| Meaning.RunCtGuard | internal/agent/nftfw/nftfw.go:448-459 | the first guard accepts exactly established and related packets |
| Meaning.RunLoGuard | internal/agent/nftfw/nftfw.go:463-469 | the second guard accepts exactly packets from lo |
| Meaning.FirstMatchExpand | internal/agent/nftfw/nftfw.go:661-670 | a both rule and its two halves decide every packet alike |
| Meaning.CompiledMeaning | internal/agent/nftfw/nftfw.go:392-515 | for every flag, rule list and packet, the installed table gives the verdict of the first matching rule after the guards, where tcp is protocol 6 and udp 17; drop by default when enabled, accept when disabled |
| Meaning.CompiledFamilyMeaning | internal/agent/nftfw/nftfw.go:471-494 | for every rule list and packet, the verdict by address and family is that of the table compiled from the rules of the packet's family alone |
| Meaning.OneFamilyMeaning | internal/agent/nftfw/nftfw.go:471-494 | a list decides every packet of its sources' family by address and family |
| Strays.ConfinedMatches | internal/agent/nftfw/nftfw.go:471-494 | a rule that cannot meet the other family matches a well-formed packet by bytes if and only if it does by address and family |
| Strays.AllConfinedExact | internal/agent/nftfw/nftfw.go:471-494 | lists of such rules decide every well-formed packet by address and family |
| Strays.SourceConfinesFamilyExactly | internal/agent/nftfw/nftfw.go:471-494 | a rule keeps to its source's address family on every well-formed IPv4 and IPv6 packet, in whatever company of rules that keep to theirs, if and only if it has no source, or no device but lo has its name, or its 16-byte source fits no IPv4 packet for the rule |
| Decode.TrimZero | internal/agent/nftfw/nftfw.go:685-692 | the longest NUL-free prefix |
| Decode.DecodeKernelRule | internal/agent/nftfw/nftfw.go:532-608 | the moving-index pass computes the recursive decoder's result, failures included |
| Decode.KernelRulesToRules | internal/agent/nftfw/nftfw.go:613-653 | the grouping pass skips guards and undecodable programs and merges twins greedily from the left |
| Decode.ReadNameExactly | internal/agent/nftfw/nftfw.go:679-692 | a name of at most 15 bytes comes back from the kernel unchanged if and only if it holds no NUL |
| Decode.DecodeOne | internal/agent/nftfw/nftfw.go:474-608 | an emitted rule decodes to its own fields and is never taken for a guard |
| Decode.GroupSkipsGuards | internal/agent/nftfw/nftfw.go:617-625 | both guards are dropped and nothing else is |
| Decode.ReadBuilt | internal/agent/nftfw/nftfw.go:376-386 | reading an installed chain gives the normal form of the list, names cut at a NUL |
| Decode.KernelRoundTrip | internal/agent/nftfw/nftfw.go:474-657 | every acceptable list comes back from the kernel as its normal form if and only if its names are NUL-free |
| Decode.KernelRoundTripIdentity | internal/agent/nftfw/nftfw.go:474-657 | with canonical addresses and NUL-free names a list comes back as itself if and only if it has no adjacent twin |
| GoLib.Atoi | internal/agent/nftfw/conf.go:208-223 | the digit loop computes the capped decimal value, 0 beyond 65535 |
| GoLib.AtoiItoa | internal/agent/nftfw/conf.go:78-116 | every port number survives being printed and read |
| GoLib.AtoiExactly | internal/agent/nftfw/conf.go:208-223 | a text of digits is read as the number it denotes, or as 0 beyond five digits or 65535 |
| Conf.QuoteBodyExactly | internal/agent/nftfw/conf.go:68 | the printed name is the name if and only if every rune of it prints as itself |
| Conf.ParseLineExactly | internal/agent/nftfw/conf.go:26 | the parser finds groups if and only if they are well formed and spell the line, so the rule-line expression is unambiguous |
| Conf.RenderRule | internal/agent/nftfw/conf.go:65-92 | the rendered rule is the text that the expression's groups of that rule spell |
| Conf.RuleLineParses | internal/agent/nftfw/conf.go:26-124 | a rendered line is one line and parses back to the rule, its name as printed |
| Spelling.LineSpells | internal/agent/nftfw/conf.go:26 | the groups of the rule-line expression stand in the line with nft's own words around them |
| Spelling.RuleLineSpells | internal/agent/nftfw/conf.go:65-92 | the line of a rule spells its printed interface, family word and source, protocol, port and verdict |
| Spelling.FamilyWordExactly | internal/agent/nftfw/conf.go:70-77 | the address is written after `ip6 saddr` if and only if it is a 16-byte one, and after `ip saddr` if and only if it is a 4-byte one |
| Spelling.EscapeStandsFor | internal/agent/nftfw/conf.go:68 | the escape printed for an unprintable ASCII byte stands for that byte in Go |
| BootConf.RenderConf | internal/agent/nftfw/conf.go:30-56 | the builder's text is the header, one line per protocol of each rule in order, and the closing lines |
| BootConf.FlagFound | internal/agent/nftfw/conf.go:27-40 | the policy search finds the policy line, whatever follows it and whatever stands before it |
| BootConf.HeaderReadsBack | internal/agent/nftfw/conf.go:106-110 | every written file carries the marker and gives back the flag it was written with |
| Spelling.FileSpells | internal/agent/nftfw/conf.go:30-56 | the whole file, line by line, in literal text |
| Spelling.LoadedFlagExactly | internal/agent/nftfw/conf.go:105-110 | any text loads as enabled if and only if it has the marker, its first policy is drop and it has the jump |
| LoadConf.MergeClumped | internal/agent/nftfw/conf.go:131-142 | the index loop merges adjacent rules whose keys agree |
| LoadConf.KeyInjective | internal/agent/nftfw/conf.go:144-146 | equal keys mean equal interface, port, action and source, although names may hold the separator |
| LoadConf.ClumpedIsMerge | internal/agent/nftfw/conf.go:131-146 | merging by key is merging of twins |
| LoadConf.LoadFile | internal/agent/nftfw/conf.go:105-127 | loading a text computes the flag search, line parsing and merging |
| LoadConf.FixedLines | internal/agent/nftfw/conf.go:32-54 | header, guard, jump and closing lines never parse as rules |
| LoadConf.LoadRendered | internal/agent/nftfw/conf.go:30-142 | loading what was rendered gives the flag and the merged list with names as printed |
| LoadConf.TextRoundTrip | internal/agent/nftfw/conf.go:30-142 | loading what was rendered gives the flag and exactly mergeClumped of the list if and only if every name prints as itself |
| LoadConf.ControlNameLost | internal/agent/nftfw/nftfw.go:239-243 | a one-byte control name passes addRule and does not survive the boot file |
| LoadConf.RenderLoaded | internal/agent/nftfw/conf.go:30-142 | rendering what was loaded gives the same text |
| LoadConf.ConfForeign | internal/agent/nftfw/conf.go:151-166 | the line loop decides whether an unmarked file has real content |
| Spelling.ForeignExactly | internal/agent/nftfw/conf.go:151-166 | any text is foreign if and only if it lacks the marker and a line of it, trimmed, is neither empty nor starts with # or ! |
| LoadConf.WrittenNeverForeign | internal/agent/nftfw/conf.go:30-166 | no file the agent writes is foreign to it |
| Conflict.ConflictScan | internal/agent/nftfw/nftfw.go:345-372 | the loop reports exactly the chains outside table inet gopit that run at hook 1 with priority 0 or less and have rules or a drop policy, and succeeds if and only if there is none |
| Conflict.ClearFate | internal/agent/nftfw/nftfw.go:340-372 | after a clean scan, with all chains of the input hook run in ascending priority, those ahead of gopit or beside it let every packet through; gopit's verdict stands and what it accepts goes on to the chains of later priority |
| Conflict.GopitDecidesExactly | internal/agent/nftfw/nftfw.go:340-372 | however chains run, no packet that gopit accepts is lost at filter priority or before if and only if every foreign chain there lets every packet through |
| Conflict.ClearExactly | internal/agent/nftfw/nftfw.go:345-372 | the scan succeeds if and only if that is so and the foreign chains ahead have no rules |
| Conflict.HarmlessChainRefused | internal/agent/nftfw/nftfw.go:356-365 | a foreign chain whose only rule is accept is refused although, run by its rules, it takes no packet away |
| Firewall.Render | internal/agent/nftfw/nftfw.go:175-197 | the shown status numbers the rules from 1 in order and spells each field in the words of the wire |
| Firewall.StatusDetermines | internal/agent/nftfw/nftfw.go:175-197 | two states of acceptable rules that show the same status are the same flag and list |
| Firewall.API.constructor | internal/agent/nftfw/nftfw.go:95-97 | the object starts on whatever kernel and file there are |
| Firewall.API.Apply | internal/agent/nftfw/nftfw.go:392-430 | one batch replaces the table or leaves it |
| Firewall.API.CheckForeign | internal/agent/nftfw/conf.go:151-166 | a foreign file is seen as foreign if and only if it can be read |
| Firewall.API.PersistConf | internal/agent/nftfw/nftfw.go:434-442 | the file becomes the rendered state unless it is seen to be foreign or the write fails |
| Firewall.API.EnsureInitialized | internal/agent/nftfw/nftfw.go:313-339 | every branch of recovery: new kernel and file, and the error |
| Firewall.API.LogicalState | internal/agent/nftfw/nftfw.go:376-386 | flag and list read from the installed table, or the error |
| Firewall.API.Mutate | internal/agent/nftfw/nftfw.go:267-293 | recover, scan, read, change, apply, persist: new state and error at every exit |
| Firewall.API.Show | internal/agent/nftfw/nftfw.go:157-172 | a reading call changes nothing but what recovery changes |
| Firewall.API.Perform | internal/agent/nftfw/nftfw.go:117-153 | state and reply of every call, refused requests included |
| Runs.LogicalIs | internal/agent/nftfw/nftfw.go:376-386 | reading an installed list back gives its normal form, names cut at a NUL |
| Runs.ConfStateIs | internal/agent/nftfw/nftfw.go:321-324 | loading the boot file gives the merged saved list, names as printed, or nothing if the file is not the agent's |
| Runs.InitializedKeeps | internal/agent/nftfw/nftfw.go:307-339 | recovery installs the reloaded list or nothing, and never changes what Status shows |
| Runs.MutatedRefines | internal/agent/nftfw/nftfw.go:264-293 | a change that fails anywhere leaves what Status shows; one that succeeds installs the changed list, and saves it unless the file is seen to be foreign or cannot be written |
| Runs.StepRefines | internal/agent/nftfw/nftfw.go:117-339 | each call, whatever is asked and whatever fails, is a step of the machine on lists; a failed one changes nothing Status shows, any other answers as the machine does |
| Runs.StepAnswers | internal/agent/nftfw/nftfw.go:117-339 | when every kernel call and read that the call needs works and no foreign chain shadows, the answer is the machine's, errors included, whatever becomes of the boot file's checks and writes |
| Runs.RunRefines | internal/agent/nftfw/nftfw.go:231-339 | every run, with any requests, the table vanishing, chains changing, and kernel calls, reads and writes failing anywhere, is a run of the machine that holds an installed and a saved list |
| Runs.RunEnforces | internal/agent/nftfw/nftfw.go:231-515 | after any run an installed table gives every packet the verdict the installed list intends |
| Runs.DoneDecides | internal/agent/nftfw/nftfw.go:264-293 | when a change is answered Done, every packet through the input hook gets the verdict intended by the changed list, wherever gopit's chain stands among the others; only what it accepts goes on to chains of later priority |
| Runs.StartHolds | internal/agent/nftfw/nftfw.go:307-324 | a fresh host, or one with a foreign file, starts as the empty firewall |
| Runs.AddedListIsNorm | internal/agent/nftfw/nftfw.go:244-246 | the normal form after an add: join the last entry's twin or append with the canonical address |
| Runs.PreviewAgrees | internal/agent/nftfw/nftfw.go:199-247 | Status after an add shows what the preview showed, up to joining the last entry's twin, the spelling of the address and a name cut at NUL |
| Requests.RequestExactly | internal/agent/nftfw/nftfw.go:231-246 | a request is accepted if and only if its words, port, trimmed address and trimmed interface are in order, and its rule has exactly the protocol, port, action, source and interface they say |
| Requests.RefusedExactly | internal/agent/nftfw/nftfw.go:199-247 | an add or preview is refused if and only if something in it is wrong, with the message of the first thing wrong, and changes nothing |
| Requests.RefusedOutright | internal/agent/nftfw/nftfw.go:138-148 | delete numbers below one and, by configuration, toggles are refused whatever the state |
| Requests.RangeRefusedExactly | internal/agent/nftfw/nftfw.go:249-256 | a delete is refused if and only if Status shows no rule of that number |
| Requests.OutsideFailures | internal/agent/nftfw/nftfw.go:313-323 | without the kernel every call says so; a boot file that cannot be read fails a call if and only if the table is gone and the file is there |
| Requests.AddDecides | internal/agent/nftfw/nftfw.go:229-247 | once an add is Done, the packets that its words speak of get what it asks for unless a rule shown before decides them, and all others what they got before |
| Requests.OpensOnlyWhatIsAsked | internal/agent/nftfw/nftfw.go:229-247 | with no rules before, an allow request opens its port to exactly the packets it speaks of, one with a source only to that address's bytes |
| Requests.ToggleShows | internal/agent/nftfw/nftfw.go:258-262 | after a toggle Status shows the flag asked for and the same rules |
| Requests.DeleteShows | internal/agent/nftfw/nftfw.go:249-256 | a delete takes out exactly the rule shown under that number; later rules move up, and the neighbours show as one from then on if and only if they were twins |
| Requests.ConflictRefusesExactly | internal/agent/nftfw/nftfw.go:345-372 | with the kernel answering, a change is refused for a conflict if and only if a chain outside gopit's at hook 1 and priority 0 or less has rules or drops, and then changes nothing; Status still answers |
| PlainRuns.StartOneList | internal/agent/nftfw/nftfw.go:307-324 | a host with no table and no file of the agent's starts as the empty one-list machine |
| PlainRuns.PlainRunRefines | internal/agent/nftfw/nftfw.go:231-339 | with names that print as themselves and boot files that work, every run is one of a machine holding one flag and one normal-form list, which the vanishing of the table does not touch |
| Ownership.ForeignStepExactly | internal/agent/nftfw/nftfw.go:331-338 | a call changes a foreign boot file if and only if it comes to a write, every check before it cannot read the file, and the write succeeds |
| Ownership.ForeignFileKeptExactly | internal/agent/nftfw/conf.go:148-166 | a foreign file keeps its bytes through a run if and only if no step of it does that |
| Ownership.UnreadableForeignReplaced | internal/agent/nftfw/conf.go:151-155 | a toggle with only the check failing replaces a foreign file, and with nothing failing leaves it |
| Ownership.WrittenFilesMarked | internal/agent/nftfw/conf.go:148-166 | whatever fails, a run leaves the file as it was or marked, and a marked file is never foreign |
| LibWitness.LawfulLibExists | internal/agent/nftfw/conf.go:65-77 | the laws assumed of address parsing, trimming and quoting can be met together |
| Manager.StepHolds | internal/server/nodemanager/manager.go:83-304 | every step of every goroutine keeps the invariant behind the results that follow |
| Manager.StatusAlternates | internal/server/nodemanager/manager.go:97-160 | in every interleaving the statuses reported for a node are online, offline, online and so on |
| Manager.OneLoopPerNode | internal/server/nodemanager/manager.go:83-249 | in every interleaving, Close included, at most one connect loop per node is past its stop check |
| Manager.ReadLoopsOwned | internal/server/nodemanager/manager.go:150-249 | an unfinished read loop has its node's connect loop waiting for it, and each stop channel is closed at most once, when its read loop is over |
| Manager.EvictsOnlyItself | internal/server/nodemanager/manager.go:151-157 | a read loop about to evict finds its own connection listed or none |
| Manager.ReconcileServesExactly | internal/server/nodemanager/manager.go:189-221 | in every interleaving before Close empties the maps, reconciling a node leaves one connect loop of it at most, and one that may serve it if and only if no loop of it was on its way out |
| Manager.LostReconcile | internal/server/nodemanager/manager.go:203-221 | some run, with the manager running and nothing else going on, reconciles a node and leaves it unserved |
| Closing.CloseLastsExactly | internal/server/nodemanager/manager.go:82-94 | after Close no schedule ever lists a connection again if and only if no connect loop was past its stop check and still on its way to one |
| Closing.CloseEmptiesExactly | internal/server/nodemanager/manager.go:83-94 | the last step of Close leaves nothing listed, for good under exactly that condition |
| Closing.DropUnlists | internal/server/nodemanager/manager.go:295-307 | a dropped node is not listed, nor again before a connect loop of it lists its connection; nothing else is touched |
| Retrying.GivesUpExactly | internal/server/nodemanager/manager.go:216-249 | in every run of a manager not stopped, a connect loop has given up if and only if it did not find its node in the store |
| Retrying.ComesBack | internal/server/nodemanager/manager.go:216-249 | otherwise it comes back to its stop check by steps of its own and of its read loop, whatever dials fail and connections are lost |
| Retrying.RetriesAtOnce | internal/server/nodemanager/manager.go:232-247 | a refused dial leads back there through the backoff, a connection whose read loop is over at once |
| Closing.ConnectionAfterClose | internal/server/nodemanager/manager.go:82-117 | some run lists a connection after Close has returned |
| Fanout.Conn.constructor | internal/server/nodemanager/manager.go:109 | a connection starts without subscribers |
| Fanout.Conn.Subscribe | internal/server/nodemanager/manager.go:57-61 | the channel is subscribed and no channel's contents change |
| Fanout.Conn.Unsubscribe | internal/server/nodemanager/manager.go:64-68 | the channel is not subscribed and no channel's contents change |
| Fanout.Conn.Broadcast | internal/server/nodemanager/manager.go:71-80 | in whatever order the map is walked, exactly the subscribers with room get the envelope, once |
| Fanout.DeliveredInOrder | internal/server/nodemanager/manager.go:57-80 | in every interleaving a subscriber gets an in-order subsequence of what was broadcast while it was subscribed, and all of it if and only if its buffer was never full at a broadcast |
| Fanout.WaitForID | internal/protocol/messages.go:100-116 | the first arrival with the id before the cut, or none |
| Fanout.StillSubscribed | internal/server/nodemanager/manager.go:280-285 | a waiting request's channel stays subscribed with its eight places |
| Fanout.RequestAnsweredExactly | internal/server/nodemanager/manager.go:280-293 | a wait that takes all that is delivered finds the response if and only if it arrived with fewer than eight unread envelopes queued |
| NodeStore.Store.constructor | internal/server/store/sqlite.go:56-68 | a new store has no nodes |
| NodeStore.Store.UpsertNode | internal/server/store/sqlite.go:262-281 | a new row is stored as given; a known one keeps status, token and first_seen |
| NodeStore.Store.SetNodeToken | internal/server/store/sqlite.go:283-293 | only that row's token changes, and an absent row is an error |
| NodeStore.Store.GetNode | internal/server/store/sqlite.go:295-309 | the stored row, or not found |
| NodeStore.Store.SetNodeStatus | internal/server/store/sqlite.go:330-335 | only that row's status and last_seen change, and an absent row is no error |
| NodeStore.Store.DeleteNode | internal/server/store/sqlite.go:337-346 | the row is gone, no other is, and an absent row is an error |
| NodeStore.Store.UpsertReplies | internal/server/discovery/udp.go:120-141 | a round of discovery adds unknown nodes as pending without token, keeps status, token and first_seen of known ones, and leaves each announced node with its last reply's info |
| NodeStore.TakeNext | internal/server/discovery/udp.go:123-139 | one more reply adds its node to the announced ones and becomes the last reply of that node only |
| NodeStore.Approve | internal/server/api/nodes.go:131-158 | not found, refused for want of any token, or approved with its own or else the pairing token; nothing else changes |
| NodeStore.ApproveInARow | internal/server/api/nodes.go:131-158 | the handler's database calls taken in a row as lifecycle steps have the handler's effect, refusal included |
| Working.StepIdle | internal/server/nodemanager/manager.go:97-249 | a node nobody is at work on is neither reported on nor taken to work by any step but its reconcile in a running manager |
| Working.Advance | internal/server/nodemanager/manager.go:97-249 | a loop at work has a step that brings it nearer to a report on its node, or makes it |
| Approval.PendingStaysExactly | internal/server/server.go:61-74 | in every run, deletions included, a pending node never leaves pending without an Approve, whatever happens next, if and only if no loop is at work on it and, in a running manager, no Reconcile call still has to visit it |
| Approval.ReturnSafeExactly | internal/server/discovery/udp.go:120-141 | a node that comes back by discovery has a token whenever it is not pending, whatever happens next, if and only if no loop was at work on its id, no Reconcile call of a running manager still had to visit it, and no Approve of it was past the token check |
| Approval.ApprovedNodesHaveTokens | internal/server/api/nodes.go:129-158 | in every run in which ids come into the store only while no loop is at work on them and no Reconcile call has still to visit them, each non-pending node has a token, and the server is at work on approved nodes only |
| Approval.ApprovalMonotone | internal/server/store/sqlite.go:262-335 | in such runs only Approve takes a node out of pending; in any run nothing takes it back, a token is never emptied, and discovery and manual adds leave known nodes' status and token alone |
| Approval.NoReturnIsQuiet | internal/server/api/nodes.go:232-240 | runs in which no deleted id returns are such runs |
| Approval.WithoutDeletes | internal/server/api/nodes.go:232-240 | and so are runs without deletions |
| Lifecycle.RediscoveredWithoutApproval | internal/server/api/nodes.go:232-240 | a concrete run with a deletion and a rediscovery ends with an online node that has no token and was not approved |
| Lifecycle.ManagerNodes | internal/server/nodemanager/manager.go:97-249 | a manager step adds goroutines, connections and reports only for the node it works on |
| Lifecycle.ManagerRuns | internal/server/nodemanager/manager.go:189-249 | the manager's part of every server run is a run of the manager, so its results hold there |
| Statuses.OnlineMeansLive | internal/server/server.go:61-74 | in every run a node stored as online has a connect loop between its online and its offline report, one stored as offline has none |
| Statuses.ReportStored | internal/server/server.go:61-74 | a report is stored as online or offline on its node alone, token kept |
| Statuses.ReconcilesExactly | internal/server/nodemanager/manager.go:189-212 | a Reconcile comes to exactly the approved, offline and online nodes, and one it comes to is served from then on if and only if no loop of it was on its way out |
| Statuses.TokenlessDiscovered | internal/server/api/nodes.go:67-98 | in every run a node without a token was discovered: one added by hand has a token, and none loses it |
| LineWriter.IndexByte | internal/agent/docker/client.go:353-360 | the first position of the byte, or -1 if and only if it is absent |
| LineWriter.Writer.constructor | internal/agent/docker/client.go:325 | a new splitter holds and has emitted nothing |
| LineWriter.Writer.Write | internal/agent/docker/client.go:327-343 | the re-slicing loop makes the specified emissions, and returns the length of what follows the last newline |
| LineWriter.Writer.Flush | internal/agent/docker/client.go:346-351 | a held partial line is emitted, an empty one is not |
| LineWriter.WriteShape | internal/agent/docker/client.go:327-343 | what one write does is given by the newline-separated pieces of held bytes and data |
| LineWriter.ChunkingIrrelevantExactly | internal/agent/docker/client.go:319-351 | every division of a stream into writes gives the stream's lines after a flush if and only if no closed run exceeds 65536 bytes and the last exceeds it by one at most |
| LineWriter.NothingLost | internal/agent/docker/client.go:319-351 | with no such bound, emitted bytes and buffer are the stream without its newlines, and the buffer never exceeds 65536 after a write |
| Streams.OneLiveFollow | internal/agent/docker/client.go:246-281 | in every interleaving two live follows of a container are one follow, the one in the table |
| Streams.FinishingRemovesOnlyItself | internal/agent/docker/client.go:262-269 | a finishing follow takes out its own entry and never a newer one |
| Streams.StopSilences | internal/agent/docker/client.go:305-316 | after a stop exactly the container's follows are not live |
| Streams.DisconnectReaches | internal/agent/docker/client.go:255-260 | a live follow of a departed client that is still at work can be cancelled by its watcher at any time |
| Streams.OneEndEvent | internal/agent/docker/client.go:270-276 | each follow past its end has attempted exactly one end event, any other none |
| Streams.EndIsLast | internal/agent/docker/client.go:262-294 | after its end event a follow writes nothing more |
| Streams.EndCarriesError | internal/agent/docker/client.go:270-284 | a follow's end event carries the error with which its logs could not be opened, and none if they could |
| Streams.EndedFollowSentAllLines | internal/agent/docker/client.go:282-294 | an ended follow has sent for each output exactly the lines of what Docker delivered of it, however framed and interleaved, if no run without newline exceeds 65536 bytes, the last one by one at most |
| Streams.StoppedAtFirstNewline | internal/agent/docker/client.go:282-294 | with a copier that stops at a short count, which Write returns exactly for data with a newline, a follow ends at its first frame with a newline, so it sends no more pieces of an output than that one frame has |
| LoginLimiter.Limiter.constructor | internal/server/api/auth.go:86 | a new limiter counts nothing |
| LoginLimiter.Limiter.Blocked | internal/server/api/auth.go:60-68 | the window rolls first, then the count decides |
| LoginLimiter.Limiter.Fail | internal/server/api/auth.go:70-78 | the window rolls first, then one failure is counted |
| LoginLimiter.Limiter.Reset | internal/server/api/auth.go:80-84 | only that address is forgotten |
| LoginLimiter.Limiter.Login | internal/server/api/auth.go:101-119 | state and outcome of an undisturbed login: blocked and malformed ones count nothing |
| LoginLimiter.AtMostLimitPerWindow | internal/server/api/auth.go:47-119 | in every interleaving of requests, an address that never logs in and has at most k let through and unanswered at a time gets at most limit + k - 1 credential failures per window, hence limit one request at a time |
| LoginLimiter.AtMostTwiceLimit | internal/server/api/auth.go:47-119 | and at most twice that in any half-open interval of window length, also when the window rolls between the check and the count |
| LoginLimiter.BoundReached | internal/server/api/auth.go:103-115 | for every limit and k some run with at most k at once records limit + k - 1 failures in one window |
| LoginLimiter.LetThroughExactly | internal/server/api/auth.go:60-68 | in every interleaving, a request of an address that never logged in is let through if and only if the window is over or holds fewer than limit of its failures |
| LoginLimiter.SuccessForgets | internal/server/api/auth.go:80-119 | a login with right credentials forgets that address's failures and no others, so its next request is let through |
| LoginLimiter.LoginInARow | internal/server/api/auth.go:101-119 | a request undisturbed by others is its locked sections in a row |
| Dump.JoinValues | internal/server/store/backup.go:89-93 | the value loop and its join give the comma-separated literals |
| Dump.DumpRows | internal/server/store/backup.go:84-94 | the row loop writes one INSERT per row, in order |
| Dump.ScanDoubled | internal/server/store/backup.go:58-143 | a quoted text scans back to itself before anything but its quote if and only if it holds no NUL |
| Dump.ScanSqlVal | internal/server/store/backup.go:58-69 | every literal scans back to its value and no other, exactly when a text holds no NUL |
| Dump.DumpReadsBack | internal/server/store/backup.go:58-98 | any sequence of INSERTs, names included, scans back to itself if and only if it is NUL-free, and never to anything else |
| Dump.TableReadsBack | internal/server/store/backup.go:58-98 | whatever quotes, commas, parentheses and newlines its values hold, a table's dumped rows read back exactly if and only if name and texts are NUL-free |
| TtyRec.Le32Value | internal/agent/terminal/pty.go:88-90 | a header word reads back as the value modulo 2^32 |
| TtyRec.FrameLayout | internal/agent/terminal/pty.go:87-94 | seconds, microseconds and length, byte by byte, then the bytes |
| TtyRec.Recorder.constructor | internal/agent/terminal/pty.go:69-80 | a recording starts empty |
| TtyRec.Recorder.Write | internal/agent/terminal/pty.go:83-95 | the file grows by the record's frame, or by the part of it that was written before an error |
| TtyRec.ReadTorn | internal/agent/terminal/pty.go:91-94 | what a short write leaves is never read as a record |
| TtyRec.FramesReadBack | internal/agent/terminal/pty.go:83-95 | any records with payloads below 2^32 read back with the same headers and payloads, also before a torn end |
| TtyRec.CutRecordingReadsBack | internal/agent/terminal/pty.go:83-95 | a recording cut off at any byte reads back as exactly the records that fit |
| TtyRec.ReadSound | internal/agent/terminal/pty.go:83-95 | any bytes are the frames of what is read from them and what is left, so reading inverts writing in both directions |
| TtyRec.WritesReadBackExactly | internal/agent/terminal/pty.go:83-95 | with writes failing anywhere, a recording reads back as the records written whole if and only if it begins with their frames and no frame can be read after them |
| TtyRec.CleanFailuresReadBack | internal/agent/terminal/pty.go:91-94 | it does so when every write that failed before a later one left nothing |
| TtyRec.TornWriteLoses | internal/agent/terminal/pty.go:91-94 | it does not when a write left its time stamp or more without its end and a record with another time stamp was written whole next |

## Left out

- PlainRuns.PlainRunRefines: asks for working boot files and plain names, because the code only logs a failed write and loses other names; `Runs.RunRefines` is the statement without them.
- Runs.RunRefines: a boot file with the agent's marker is taken to be one that the agent wrote, unedited.
- Streams.EndedFollowSentAllLines: says nothing of the order between the two outputs, and whether copying goes on after a short count from Write is the Docker library's choice, so both are allowed; `Streams.StoppedAtFirstNewline` is about copiers that stop.
- TtyRec.FramesReadBack: payloads of 2^32 bytes and more are outside, because the length word is cut to 32 bits.
- Strays.SourceConfinesFamilyExactly: a packet is well formed by its header's lengths, checksum, option framing and protocol; which addresses a host routes, what each option kind asks, transport headers and chains of IPv6 extension headers are not judged.
- Conflict.ClearFate: a foreign chain's run is any function that gives an empty chain's policy; `Conflict.ByRules` is one by its rules, without the chains it jumps to.
- Netlink transport, Flush, fsync and rename: each is one step that succeeds or fails without effect.
- The nft binary's own compilation of the boot file at boot: only the agent's recovery through `loadConf` and `apply` is modelled.
- Hand-edited rules inside the managed chain: the decoder's result on them is modelled, but nothing is claimed about its soundness.
- `net.ParseIP`, `net.IP.String`, `strings.TrimSpace` and `%q` on non-ASCII runes: parameters with stated laws.
- Go's regular-expression engine: the expressions are modelled as searches and parsers over the text.
- The texts of errors that carry details (foreign chain listings, netlink errors), unknown methods and undecodable payloads.
- The table of followed logs and the connection manager as objects: they are transition systems here, because several goroutines share them; mutual exclusion of the locked sections is taken for granted.
- pingLoop and socket closing: they only make a read fail, which a read loop may do at any time.
- Liveness and real time: deadlines, backoff and timeouts are steps that may or may not happen.
- Unbuffered subscriber channels: every subscriber in the repository uses a buffered one.
- Restore, the schema part of Dump, and real numbers in the dump, whose `%v` form does not keep the SQL type.
- The remaining columns of Create and the host name checks, users, settings, metrics and maintenance of the store.
- The ufw backend, Docker Engine and compose calls, PTY and su handling, statistics, UDP sockets, HTTP, WebSocket, TLS, JWT, bcrypt, password strength, Prometheus and the library token bucket.
- Terminal session hand-over: its check and its take are separate locked sections, so it keeps no ownership invariant.
- Configuration loading, webhooks, browser socket tracking, the web front end and install.sh.
