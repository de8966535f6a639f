# BitSwan: what its deploy, gateway and access code keeps

A Dafny model of the parts of the repository in which a property depends on several functions or on a whole run.
`dafny verify dfyconfig.toml` checks all of it.

| modules | models |
|---|---|
| `Sni` (with `Bytes`) | the egress gateway's reader of TLS ClientHello records (section 4.1.2 of RFC 8446, section 3 of RFC 6066) |
| `DnsCache`, `DnsCacheRuns` (with `StableSorting`) | the gateway's bounded, expiring memory of which names an address had |
| `Dial` (with `Sequences`) | the gateway's vetting of addresses and the deadlines of its dialing attempts |
| `Trees`, `Overlay` (with `Sorting`) | the git-style checksum of overlaid directories |
| `TaskQueue`, `TaskQueueRuns` | the queue that serialises git operations, its leases, clearing and history |
| `Locks`, `Snapshots`, `Deploys`, `SetDeploy` | the two reservation managers and the caller that deploys what is free |
| `Slices`, `SliceLaws`, `SlicePaths` (with `Names`) | the flat and the grouped form of the deploy state, and its one file per business process |
| `Requirements` | the search for the next requirement that does not pass |
| `RequirementsFile`, `Quoting`, `Text`, `TomlForms` | the reader and the writer of the requirements file, and what the reader makes of files written by hand |
| `Drain`, `Debounce` | the mark-and-drain scheduler of copy refreshes, and the one-flag scheduler it differs from |
| `Broadcast` (with `Sequences`) | the subscribers' bounded queues |
| `Acl`, `AclLaws`, `AclRuns`, `Revocations` | roles, delegation to the parent endpoint, ownership, and what revoking an owner does |

Where the source updates fields, the model is a class whose methods do the same steps; each method is proved against a
function (or, where the program's result depends on the order in which a set or a map is gone through, a relation) on the
value of those fields. The lemmas are about these functions and relations, over every input and every run. A run is a
list of events; concurrency is the interleaving of the stretches between two awaits, or of atomic calls. Clocks, the
network, name lookup and success of a dial, the SHA-1 function, the names' slug rule, which characters are printable,
and case folding beyond ASCII are parameters, so that every theorem holds for whatever they are; SHA-1 only has to
give 20 bytes.

Some results say where the code does not keep what one might expect of it. Each gives the exact condition under which it
does, and the failing inputs are lemmas of their own:

- freeing twice: `Deploys.FreeingExact`, with `Deploys.DoubleReleaseShares`
- revoking an owner whom the listing hides, or whose grant only the program folds: `Revocations.RevokeExact` and
  `Revocations.RevokeRefuses`, with `Revocations.DottedHides` and `Revocations.KelvinStaysOwner`
- deployments that share an id or disagree: `SliceLaws.DeploymentUnchanged`, with `SliceLaws.SharedId`;
  `SliceLaws.CommitStable` and `SliceLaws.BpStable`
- an event during a broadcast: `Debounce.LastNotice`, with `Debounce.NoticeLost`
- a directory that comes back in a later layer: `Overlay.WalkIsFoldExactly`, with `Overlay.UntamedDiffers`
- an id that repeats on a chain of requirements: `Requirements.EndsExactly`, with `Requirements.RepeatedIdNeverEnds` and,
  where it does no harm, `Requirements.FailingRootIsFound`
- characters that strconv.Quote escapes and the reader does not restore: `Quoting.QuotingRoundTrip`, with
  `Quoting.NoBreakSpace`
- names with a colon: `Snapshots.ColonConfuses`

Two places where code and comments disagree follow the code: regrouping carries over only `git_commit` of a stage's
metadata (bitswan-gitops/app/utils.py:328-356 also names `deployed_*` and `history`), and the checksum writes directories
with mode `040000` and keeps empty ones, so it is not the id git would compute (bitswan-gitops/app/utils.py:845-854).

## Model

| member | source | states |
|---|---|---|
| `Sni.ParseClientHello` | bitswan-automation-server/cmd/egress-gateway/sni.go:36-103 | the walk over any byte string stays in bounds and computes the parse that the lemmas below are about |
| `Sni.ReadClientHello` | bitswan-automation-server/cmd/egress-gateway/sni.go:14-33 | reads one record, or as much of it as the connection gives, and parses the handshake in it |
| `Sni.ParseCharacterised` | bitswan-automation-server/cmd/egress-gateway/sni.go:36-103 | a name is returned if and only if the bytes are, by a separate grammar, a hello whose first server_name extension starts with that host_name |
| `Sni.HelloRoundTrip` | bitswan-automation-server/cmd/egress-gateway/sni.go:36-103 | parsing the encoding of any hello (any session id, ciphers, compressions and extensions) gives the host_name that opens its first server_name extension, or the error that says which part is missing |
| `Sni.PreludeOf` | bitswan-automation-server/cmd/egress-gateway/sni.go:49-73 | everything accepted up to the extensions is the encoding of some prelude, followed by the rest: the parser accepts nothing else |
| `Sni.ParseIgnoresAppended` | bitswan-automation-server/cmd/egress-gateway/sni.go:36-103 | a successful parse gives the same name after any bytes are appended |
| `Sni.ReplayIsPrefix` | bitswan-automation-server/cmd/egress-gateway/sni.go:14-33 | what is kept for replay is what was sent first, and nothing after the record is looked at |
| `Sni.RecordRoundTrip` | bitswan-automation-server/cmd/egress-gateway/sni.go:14-33 | a hello sent in one record is kept whole and its name found, whatever follows |
| `Sni.RecordCharacterised` | bitswan-automation-server/cmd/egress-gateway/sni.go:14-33 | a name is found if and only if the connection begins with a whole handshake record, type 22, two bytes of version and a length from 1 to 65535, whose body gives it |
| `Sni.RecordRefused` | bitswan-automation-server/cmd/egress-gateway/sni.go:15-25 | any other first byte is refused after five bytes, a length of zero too, and fewer than five bytes after none |
| `Sni.RecordCut` | bitswan-automation-server/cmd/egress-gateway/sni.go:26-29 | of a record cut short everything received is kept, filled up with zeros |
| `DnsCache.Cache.Record` | bitswan-automation-server/cmd/egress-gateway/dnscache.go:61-93 | the table changes only at the address (and by pruning when a new address finds it full): the name's seen time is renewed and its expiry only grows, and a 17th name evicts the least recently seen |
| `DnsCache.Cache.Names` | bitswan-automation-server/cmd/egress-gateway/dnscache.go:98-122 | answers with the unexpired names, most recently seen first, and deletes an address only when it has none left |
| `DnsCache.Cache.PruneLocked` | bitswan-automation-server/cmd/egress-gateway/dnscache.go:126-156 | drops what expired and then only as many addresses as it must, none of them seen later than one that stays |
| `DnsCacheRuns.RunKeepsInv` | bitswan-automation-server/cmd/egress-gateway/dnscache.go:37-42 | in every run, at most 65536 addresses, 1 to 16 distinct names each, every one backed by the unbounded log of calls |
| `DnsCacheRuns.NamesSound` | bitswan-automation-server/cmd/egress-gateway/dnscache.go:98-122 | in every run the answer is duplicate-free, ordered by the log's last-seen times, and holds only names the log says are unexpired |
| `DnsCacheRuns.NamesExact` | bitswan-automation-server/cmd/egress-gateway/dnscache.go:61-122 | while no cap cut in for the address, the answer is exactly the set of unexpired names of the unbounded log, although asking deletes and expiry is a running maximum |
| `DnsCacheRuns.NamesExactWhenFew` | bitswan-automation-server/cmd/egress-gateway/dnscache.go:61-122 | both from the log alone: at most 16 names for the address and 65536 addresses ever recorded |
| `DnsCacheRuns.NamesRemembered` | bitswan-automation-server/cmd/egress-gateway/dnscache.go:61-122 | while no cap cut in, a name is answered if and only if some call recorded it less than six hours ago or less than its time to live ago |
| `DnsCacheRuns.EvictedOldest` | bitswan-automation-server/cmd/egress-gateway/dnscache.go:84-92 | a name evicted by the cap was seen no later than each that stays |
| `StableSorting.SortStable` | bitswan-automation-server/cmd/egress-gateway/dnscache.go:116 | names last seen at the same time keep the order in which they came |
| `DnsCacheRuns.PruneBounds` | bitswan-automation-server/cmd/egress-gateway/dnscache.go:126-156 | the unexpired addresses all stay if they are at most 32768, and exactly 32768 of them otherwise, each with its unexpired names only |
| `DnsCacheRuns.PrunesFarApart` | bitswan-automation-server/cmd/egress-gateway/dnscache.go:61-93 | between two prunes of any run at least 32768 addresses are new |
| `Dial.DialPinned` | bitswan-automation-server/cmd/egress-gateway/dial.go:91-141 | attempts the vetted addresses in order, each until its own deadline, stops at the first success, and never dials an address that was not vetted |
| `Dial.VettedPicks` | bitswan-automation-server/cmd/egress-gateway/dial.go:107-117 | when only public addresses may be dialed, the targets are all of them, in their order |
| `Dial.FairShare` | bitswan-automation-server/cmd/egress-gateway/dial.go:123-141 | with R left at the start and n addresses, every attempt has at least R / n, none passes the overall deadline, and the last one's is exactly that deadline |
| `Dial.ShareExact` | bitswan-automation-server/cmd/egress-gateway/dial.go:119-131 | an attempt gets the time left divided by the attempts still to be made, rounded up |
| `Dial.EnoughLeft` | bitswan-automation-server/cmd/egress-gateway/dial.go:128-133 | attempt i starts with at least (n - i) * (R / n) left, if the earlier ones ended by their deadlines |
| `Trees.UniquelyDecodable` | bitswan-gitops/app/utils.py:927-936 | a concatenation of mode, name, NUL and hash entries can be cut into entries in one way only |
| `Trees.Collision` | bitswan-gitops/app/utils.py:842-939 | two different trees of the same kind with equal checksums yield two concrete byte strings on which the hash collides |
| `Trees.DifferingEntry` | bitswan-gitops/app/utils.py:894-925 | two different directories with the same records have an entry of equal mode and hash and unequal content |
| `Trees.HashedBytes` | bitswan-gitops/app/utils.py:824-939 | what is hashed, byte for byte: for a file or a link the text blob, its length as a decimal numeral without leading zeros, NUL and the content; for a directory the same with tree, over its records in git's order of names, each the six digits of its mode, a blank, its name, NUL and 20 bytes |
| `Trees.DecimalSpells` | bitswan-gitops/app/utils.py:829 | the length reads back as the number it is, by an evaluator of digits |
| `Overlay.TreeHash` | bitswan-gitops/app/utils.py:842-939 | the recursive walk over the layers computes the canonical hash of one tree, that of the overlay |
| `Overlay.Collect` | bitswan-gitops/app/utils.py:855-885 | the entry map holds, for each name, the entry of the last layer that shows one |
| `Overlay.SortItems` | bitswan-gitops/app/utils.py:887-892 | sorting a dictionary gone through in any order gives all entries by their git key |
| `Overlay.WalkGood` | bitswan-gitops/app/utils.py:855-885 | the overlay of sane layers is a tree whose names have no NUL and no slash, so its encoding is decodable |
| `Overlay.WalkIgnoresOrder` | bitswan-gitops/app/utils.py:855-892 | layers that differ only in the order of their listings, at any depth, are walked as the same tree |
| `Overlay.WalkSees` | bitswan-gitops/app/utils.py:855-910 | for each name the walk sees what the last layer that has a considered entry of it has: a file with its executable bit and content, a link by its target, a directory as the walk over what every layer has below it, links to directories followed; .git and special files are not considered |
| `Overlay.WalkSeesNoOther` | bitswan-gitops/app/utils.py:855-885 | and no name that no layer has such an entry of |
| `Overlay.WalkIsFoldExactly` | bitswan-gitops/app/utils.py:855-910 | for all layers, the walk sees the tree that folding a later-wins two-way merge over them gives if and only if no directory hidden behind something else shows, at any depth, an entry that the layers after it do not |
| `Overlay.FoldInWalk` | bitswan-gitops/app/utils.py:855-910 | for all layers, everything the fold has is in what the walk sees |
| `Overlay.WalkIsFold` | bitswan-gitops/app/utils.py:855-910 | in particular they agree if no name is a directory, then something else, then a directory again |
| `Overlay.UntamedDiffers` | bitswan-gitops/app/utils.py:855-910 | three layers, a directory, a file and a directory of one name, on which they differ |
| `Overlay.SameChecksum` | bitswan-gitops/app/utils.py:842-939 | two lists of sane layers with equal checksums overlay to the same tree, or else yield two byte strings on which the hash collides |
| `TaskQueue.Queue.Submit` | bitswan-gitops/app/task_queue.py:131-158 | enlists at the end of the queue and trims the history |
| `TaskQueue.Queue.StartAcquire` | bitswan-gitops/app/task_queue.py:161-178 | a lease queues like any submission |
| `TaskQueue.Queue.PollLease` | bitswan-gitops/app/task_queue.py:179-187 | grants only what is running, refuses what was cancelled, and otherwise waits |
| `TaskQueue.Queue.Take` | bitswan-gitops/app/task_queue.py:225-250 | takes the head and starts it, unless it was cancelled or forgotten, which it skips |
| `TaskQueue.Queue.Clear` | bitswan-gitops/app/task_queue.py:266-278 | cancels exactly what is queued and counts it |
| `TaskQueue.Queue.TrimHistory` | bitswan-gitops/app/task_queue.py:303-315 | the deletion loop forgets exactly the finished ones beyond the 50 created last |
| `TaskQueue.NestedContext` | bitswan-gitops/app/utils.py:63-84 | entering and leaving the lock context inside a running task changes nothing in the queue: the worker's context is marked exactly while it runs one |
| `TaskQueueRuns.RunKeepsInv` | bitswan-gitops/app/task_queue.py:131-315 | the queue's invariant holds after every interleaving of submit, acquire, poll, release, take, finish and clear |
| `TaskQueueRuns.FirstInFirstOut` | bitswan-gitops/app/task_queue.py:225-263 | in every run starts are in submission order, each at most once, and what runs is one, the recorded one |
| `TaskQueueRuns.LeaseIsExclusive` | bitswan-gitops/app/task_queue.py:161-193 | while a lease is held no other is, and nothing submitted executes |
| `TaskQueueRuns.ClearedNeverRuns` | bitswan-gitops/app/task_queue.py:266-278 | what was cleared never starts, and a cleared acquire gets no lease, also after trimming forgot its record and its mark |
| `TaskQueueRuns.ClearedForever` | bitswan-gitops/app/task_queue.py:225-278 | whatever happens after a clearing, what was cleared never starts and holds no lease, and its acquirer is refused |
| `TaskQueueRuns.RecentKept` | bitswan-gitops/app/task_queue.py:303-315 | right after a submission exactly the min(50, n) finished ones created last are kept, and all unfinished ones |
| `TaskQueueRuns.PlanIsKept` | bitswan-gitops/app/task_queue.py:131-278 | started plus still to start is changed by submissions, at its end, and by clearing, and by nothing else |
| `TaskQueueRuns.StepKeepsAwaited` | bitswan-gitops/app/task_queue.py:161-193 | every step keeps that each lease still queued, or granted and not released, has an acquirer that polls or holds it |
| `TaskQueueRuns.QueueDrains` | bitswan-gitops/app/task_queue.py:161-263 | once nothing more is submitted or cleared, every fair behaviour, in which granted leases are released, comes to an idle worker and an empty queue and has started exactly the plan, in order |
| `Locks.PopAllExact` | bitswan-gitops/app/deploy_manager.py:207-223 | unconditional release keeps locks exclusive if and only if nobody else holds one of them |
| `Snapshots.Manager.CreateTask` | bitswan-gitops/app/snapshot_manager.py:134-165 | reserves every stage or reports the first busy one and changes nothing |
| `Snapshots.Manager.UpdateTask` | bitswan-gitops/app/snapshot_manager.py:167-198 | a final status frees the locks that are its own |
| `Snapshots.Manager.CleanupOldTasks` | bitswan-gitops/app/snapshot_manager.py:210-221 | forgets old finished records and no lock |
| `Snapshots.RunKeepsInv` | bitswan-gitops/app/snapshot_manager.py:134-221 | in every run the locks are exactly those of the live snapshots, each held by one |
| `Snapshots.LocksAreBacked` | bitswan-gitops/app/snapshot_manager.py:134-221 | every lock points to a retained, unfinished record that lists it, so cleanup never deletes a holder |
| `Snapshots.CreateAllOrNothing` | bitswan-gitops/app/snapshot_manager.py:134-165 | creation takes all its locks and no other, or nothing, and never takes one from another |
| `Snapshots.LiveHoldsAlone` | bitswan-gitops/app/snapshot_manager.py:134-198 | until it ends a snapshot holds all it lists, alone |
| `Snapshots.EndReleasesOwnOnly` | bitswan-gitops/app/snapshot_manager.py:190-198 | ending leaves it nothing and takes nothing from others, in every run |
| `Snapshots.UpdateRecords` | bitswan-gitops/app/snapshot_manager.py:167-198 | an update records the status given and changes no other task, and no lock until the task completes or fails |
| `Snapshots.BusyMeansListed` | bitswan-gitops/app/snapshot_manager.py:127-132 | with names free of a colon, a stage is busy if and only if a live snapshot of that business process lists it |
| `Snapshots.BusyMeansKey` | bitswan-gitops/app/snapshot_manager.py:127-132 | for all names, in every run, a stage is busy if and only if a live snapshot lists a pair with the same key |
| `Snapshots.ColonConfuses` | bitswan-gitops/app/snapshot_manager.py:127-129 | any two pairs of name and stage share a key if and only if they are the same or one name goes on, behind a colon, with the start of the other's stage |
| `Deploys.Manager.CreateTask` | bitswan-gitops/app/deploy_manager.py:124-133 | reserves one deployment or returns nothing |
| `Deploys.Manager.CreateBpTask` | bitswan-gitops/app/deploy_manager.py:135-161 | reserves every member or names the conflicting one |
| `Deploys.Manager.UpdateTask` | bitswan-gitops/app/deploy_manager.py:169-205 | a final status frees the members whoever holds them, and the log keeps the last 500 lines |
| `Deploys.Manager.Release` | bitswan-gitops/app/deploy_manager.py:207-223 | frees the members whoever holds them |
| `Deploys.LocksAreBacked` | bitswan-gitops/app/deploy_manager.py:124-246 | in every run, disciplined or not, a lock points to a retained unfinished record that lists it |
| `Deploys.EndedHoldsNothing` | bitswan-gitops/app/deploy_manager.py:196-223 | in every run what ended or was released holds nothing |
| `Deploys.UpdateRecords` | bitswan-gitops/app/deploy_manager.py:169-205 | an update records the status given and changes no other task; completing or failing frees the members, or the one deployment it is for, and nothing else |
| `Deploys.LiveHoldsAlone` | bitswan-gitops/app/deploy_manager.py:124-223 | in runs that free nothing another one holds by then, two live deploys never share a member and each holds all it lists |
| `Deploys.FreeingExact` | bitswan-gitops/app/deploy_manager.py:196-223 | a step that frees keeps the invariant if and only if no other deploy holds one of the freed members |
| `Deploys.DoubleReleaseShares` | bitswan-gitops/app/deploy_manager.py:207-223 | four calls after which two live deploys list the same member |
| `Deploys.LogIsRecentHistory` | bitswan-gitops/app/deploy_manager.py:185-194 | in every run the log of a task is the last 500 of the messages sent to it, consecutive repeats collapsed |
| `SetDeploy.SpawnSetDeploy` | bitswan-gitops/app/deploy_runner.py:162-223 | for every behaviour of other reservers in between, with the locks on entry, at the first and at the second try: what comes back says why, what is deployed are the ids not skipped in their order, held by the new record alone, and pruning only if everything requested is deployed |
| `SetDeploy.Undisturbed` | bitswan-gitops/app/deploy_runner.py:162-218 | if nobody else reserves in between, a set is deployed if and only if some id is free, and then exactly the free ones are, in order, and exactly the held ones skipped |
| `SetDeploy.SkippedWereHeld` | bitswan-gitops/app/deploy_runner.py:162-201 | every skipped id was held on entry or when the try that named it was made, every deployed one was free both times, and all in progress is answered only when every id was so held |
| `Requirements.DfsNextNonPassing` | bitswan-coding-agent/cmd/requirements.go:287-319 | for every list on which the search ends at all, it returns the walk to something that does not pass before which, in post-order, nothing fails, and none if and only if no walk from a root fails; for unique non-empty ids, whatever the parents, that is the first non-passing requirement in post-order with its chain |
| `Requirements.Dfs` | bitswan-coding-agent/cmd/requirements.go:297-316 | the recursion below one requirement computes the search, for every list on which that ends |
| `Requirements.VisitsExactly` | bitswan-coding-agent/cmd/requirements.go:287-319 | the chains gone through are exactly the chains from a root |
| `Requirements.VisitsOrdered` | bitswan-coding-agent/cmd/requirements.go:297-316 | they are gone through in post-order, defined on chains without the search |
| `Requirements.ChainDistinct` | bitswan-coding-agent/cmd/requirements.go:287-319 | no cycle of parents is reached from a root |
| `Requirements.NothingLeft` | bitswan-coding-agent/cmd/requirements.go:287-319 | with every parent there and no cycle, none is returned if and only if all requirements pass |
| `Requirements.BoundedExactly` | bitswan-coding-agent/cmd/requirements.go:287-319 | for every list, the chains of child ids that the recursion can go down are of bounded length if and only if none of them repeats an id |
| `Requirements.EndsExactly` | bitswan-coding-agent/cmd/requirements.go:297-316 | for every list the search ends if and only if every walk from the roots that comes back to an id has something that fails to its left, and then within as many levels as there are requirements |
| `Requirements.SearchIsFirst` | bitswan-coding-agent/cmd/requirements.go:297-316 | wherever it ends, for any ids, it ends at the first failing walk in post-order, or none fails |
| `Requirements.NoRepeatEnds` | bitswan-coding-agent/cmd/requirements.go:297-316 | so it ends whenever no chain of child ids repeats one; where every requirement passes, only then |
| `Requirements.UniqueNeverRepeat` | bitswan-coding-agent/cmd/requirements.go:287-319 | unique non-empty ids never repeat on a chain, whatever the parents, so that the search ends |
| `Requirements.RepeatedIdNeverEnds` | bitswan-coding-agent/cmd/requirements.go:297-316 | a first root with a first child of its own id: the search never ends, whatever else is in the list and whatever fails |
| `Requirements.FailingRootIsFound` | bitswan-coding-agent/cmd/requirements.go:297-316 | a failing first root without children is found, whatever repeats after it |
| `Quoting.UnescapeQuoted` | bitswan-coding-agent/cmd/requirements.go:158-164 | the two ReplaceAll passes undo quoting for every mix of backslashes and quotes |
| `Quoting.QuotingRoundTrip` | bitswan-coding-agent/cmd/requirements.go:200-205 | a value comes back unchanged if and only if every character in it is printable to strconv.Quote |
| `Quoting.NoBreakSpace` | bitswan-coding-agent/cmd/requirements.go:158-164 | a no-break space, which is not printable, comes back as six characters |
| `Quoting.ScanQuoted` | bitswan-coding-agent/cmd/requirements.go:158-160 | the closing quote that the pattern finds is the one that was written, whatever follows |
| `Quoting.EscapeMeans` | bitswan-coding-agent/cmd/requirements.go:200-205 | what is not written as it is stands as an escape that a separate reader of Go's escapes takes for that very character |
| `RequirementsFile.ParseRequirementsToml` | bitswan-coding-agent/cmd/requirements.go:116-140 | cutting at the headers and reading block by block, as the lemmas take it |
| `RequirementsFile.SerializeRequirementsToml` | bitswan-coding-agent/cmd/requirements.go:175-198 | the blocks with their optional lines, joined by line breaks |
| `RequirementsFile.ExtractFromBody` | bitswan-coding-agent/cmd/requirements.go:145-173 | extraction of a key from a written block gives that field's value and never text inside another field |
| `RequirementsFile.SerializeThenParse` | bitswan-coding-agent/cmd/requirements.go:116-205 | for every list with one-line values, what is read is the list without statuses and without requirements that have no id, with every unprintable character spelled out as its escape |
| `RequirementsFile.RoundTrip` | bitswan-coding-agent/cmd/requirements.go:116-205 | writing then reading is the identity, less the statuses, if and only if every id is there and every character of every value is printable |
| `TomlForms.HandWritten` | bitswan-coding-agent/cmd/requirements.go:166-171 | a value in single quotes, with any blanks around the equals sign, is read as it stands |
| `TomlForms.MultiLineBack` | bitswan-coding-agent/cmd/requirements.go:150-153 | a value with line breaks is written between three double quotes and read back as it stands, if it has no three double quotes of its own |
| `TomlForms.ExtractLaw` | bitswan-coding-agent/cmd/requirements.go:145-173 | for any text, the first line with the value between three double quotes counts, else between three single ones, else between double quotes with the escapes undone, else between single quotes |
| `TomlForms.NothingGiven` | bitswan-coding-agent/cmd/requirements.go:145-173 | a key that no line gives is read as empty |
| `TomlForms.MatchLaw` | bitswan-coding-agent/cmd/requirements.go:149-170 | a form of a key matches at a place if and only if the key, blanks, an equals sign, blanks and the value between its delimiters, closed by the first that can close it, stand there |
| `TomlForms.FirstMatchLaw` | bitswan-coding-agent/cmd/requirements.go:149-170 | and it is looked for at the starts of lines, the first one counting |
| `TomlForms.ScanLaw` | bitswan-coding-agent/cmd/requirements.go:158-160 | the text between double quotes is exactly a run of characters that are neither quote nor backslash and of backslashes with what they escape |
| `TomlForms.HeaderLaw` | bitswan-coding-agent/cmd/requirements.go:119 | a header is the text [[requirement]] and as many blanks and line breaks as end a line |
| `TomlForms.FindHeaderLaw` | bitswan-coding-agent/cmd/requirements.go:119 | the file is cut at the first header that starts a line and goes on right after it |
| `TomlForms.TrimLaw` | bitswan-coding-agent/cmd/requirements.go:121 | trimming takes Unicode white space from both ends and nothing else |
| `Drain.CopyChangeHandler.ScheduleCopiesPing` | bitswan-gitops/app/lifespan.py:372-379 | marks the copy and starts a drain only if none is live |
| `Drain.CopyChangeHandler.DrainCopiesDirty` | bitswan-gitops/app/lifespan.py:381-394 | one stretch of the drain is a step of the protocol, for any order of the names |
| `Drain.OneDrain` | bitswan-gitops/app/lifespan.py:353-394 | at every moment of every behaviour there is at most one live drain, and there is one if anything is dirty |
| `Drain.NoLostRefresh` | bitswan-gitops/app/lifespan.py:353-394 | in every fair behaviour each mark is followed by a refresh of that copy, or a full rescan, that starts after it |
| `Drain.DrainEnds` | bitswan-gitops/app/lifespan.py:381-394 | when the marks stop the drain ends with nothing dirty |
| `Drain.NothingUnasked` | bitswan-gitops/app/lifespan.py:381-394 | a copy is refreshed only if it was marked before, and everything rescanned only if that was asked for |
| `Debounce.WorkspaceChangeHandler.ScheduleUpdate` | bitswan-gitops/app/lifespan.py:110-130 | one flag decides whether an event is scheduled or dropped |
| `Debounce.WorkspaceChangeHandler.DelayedUpdate` | bitswan-gitops/app/lifespan.py:117-128 | the scheduled refresh runs and then resets the flag |
| `Debounce.NoticeServed` | bitswan-gitops/app/lifespan.py:110-130 | an event outside a broadcast is followed by a refresh that starts after it |
| `Debounce.LastNotice` | bitswan-gitops/app/lifespan.py:110-130 | the last event is followed by a refresh if and only if it does not fall between a refresh's start and the reset of the flag |
| `Debounce.NoticeLost` | bitswan-gitops/app/lifespan.py:110-130 | a fair behaviour with an event during a broadcast that no refresh follows |
| `Broadcast.EventBroadcaster.Broadcast` | bitswan-gitops/app/event_broadcaster.py:31-51 | the evicting loop ends, and every subscriber's queue has the message as its newest |
| `Broadcast.QueueIsRecentHistory` | bitswan-gitops/app/event_broadcaster.py:17-51 | in every run a queue is a suffix of what was sent since its subscription, of at most 512; sent = consumed + queued + overflows |
| `Broadcast.ConsumedInOrder` | bitswan-gitops/app/event_broadcaster.py:31-51 | what was consumed is a subsequence of what was sent, and lies before everything queued |
| `Broadcast.NothingLost` | bitswan-gitops/app/event_broadcaster.py:31-51 | consumed and queued are everything sent if and only if no message met a full queue |
| `Acl.Store.RoleFor` | bitswan-automation-server/internal/daemon/acl.go:334-357 | the branches compute the highest of the direct role and the role on the one parent |
| `Acl.Store.DirectRoleFor` | bitswan-automation-server/internal/daemon/acl.go:385-425 | the loop with its early exit finds the highest role over the slot and all matching grants, in any order of the rows |
| `Acl.Store.EndpointOwners` | bitswan-automation-server/internal/daemon/acl.go:179-201 | lists every owner's address once, the recorded one first |
| `Acl.Store.RevokeOwnership` | bitswan-automation-server/internal/daemon/acl.go:209-233 | works from such a listing: refuses, does nothing, or drops the grant and hands the slot on |
| `Acl.Store.ApplyShareAction` | bitswan-automation-server/internal/daemon/acl_share.go:92-132 | grant, revoke, deny and their errors |
| `Acl.Store.RegisterEndpoint` | bitswan-automation-server/internal/daemon/acl.go:118-156 | an existing row keeps its owner and its parent |
| `AclLaws.DirectLaw` | bitswan-automation-server/internal/daemon/acl.go:385-425 | somebody has at least a role directly if and only if the slot has the address, or a grant of at least that role is to the address or to one of the groups, without the white space around it, ignoring case |
| `AclLaws.GroupsOnly` | bitswan-automation-server/internal/daemon/acl.go:406-412 | where all grants are to groups, whoever is not recorded has at least a role if and only if such a grant is to one of his groups |
| `AclLaws.EmailsOnly` | bitswan-automation-server/internal/daemon/acl.go:403-405 | where all grants are to addresses, groups do not matter |
| `AclLaws.Outsider` | bitswan-automation-server/internal/daemon/acl.go:385-425 | who is named neither by address nor by group has no role |
| `AclLaws.RoleLaw` | bitswan-automation-server/internal/daemon/acl.go:334-380 | a role comes from the endpoint or from its one parent, unless that is itself |
| `AclLaws.KeyLaw` | bitswan-automation-server/internal/daemon/acl.go:100-105 | two host names are one if and only if they differ in the case of ASCII letters at most |
| `AclLaws.RegisterLaw` | bitswan-automation-server/internal/daemon/acl.go:118-156 | registering adds the named endpoint with the trimmed owner if it is new, and changes nothing else |
| `AclLaws.RegistrantOwns` | bitswan-automation-server/internal/daemon/acl.go:118-156 | whoever registers a new endpoint owns it |
| `AclLaws.GrantForm` | bitswan-automation-server/internal/daemon/acl_share.go:92-113 | a grant form succeeds if and only if it names an address or a group, a value, access or ownership (access if it names no role) and a known endpoint; then that row is there, and no other is new |
| `AclLaws.RevokeForm` | bitswan-automation-server/internal/daemon/acl_share.go:114-123 | any revocation but of an address's ownership drops exactly the rows of that host, kind, role and value |
| `AclLaws.OtherForms` | bitswan-automation-server/internal/daemon/acl_share.go:118-131 | denying a request changes no row and needs an address; an unknown action fails |
| `AclRuns.GrantsOnlyWiden` | bitswan-automation-server/internal/daemon/acl.go:248-264 | registering and every share action but revoke leave everybody on every endpoint at least the role they had |
| `AclRuns.GrantTakesEffect` | bitswan-automation-server/internal/daemon/acl.go:248-264 | everyone a grant matches has its role, also when the row was ignored as a duplicate |
| `AclRuns.OnlyMatchingChange` | bitswan-automation-server/internal/daemon/acl.go:248-280 | adding or dropping a grant leaves the direct role of everyone it does not match as it was, on every endpoint |
| `AclRuns.NoOwnerByDefault` | bitswan-automation-server/internal/daemon/acl_share.go:92-113 | a share form that names no role makes nobody an owner |
| `AclRuns.RunKeepsInv` | bitswan-automation-server/internal/daemon/acl_share.go:92-132 | over every sequence of registrations and share actions rows stay trimmed and grants have their endpoint |
| `AclRuns.AlwaysOwned` | bitswan-automation-server/internal/daemon/acl.go:203-208 | over every sequence of registrations and share actions each endpoint has an owner with an address, who has the owner role |
| `Revocations.RevokeExact` | bitswan-automation-server/internal/daemon/acl.go:179-233 | in whatever order the grants are listed, a revocation of an owner succeeds and removes exactly that address if and only if some owner's every possible entry in the listing is a spelling of it, some owner's is always another, and no owner grant spells it in a way only the program folds |
| `Revocations.RevokeListed` | bitswan-automation-server/internal/daemon/acl.go:179-233 | given one listing, the same if and only if the listing has the address and another one, and no owner grant is spelled so |
| `Revocations.RevokedRole` | bitswan-automation-server/internal/daemon/acl.go:209-233 | after any revocation the address has the owner role if and only if it was an owner and one of these three fails |
| `Revocations.RevokeRefuses` | bitswan-automation-server/internal/daemon/acl.go:179-227 | it is refused exactly when it should be, for the last owner, if and only if the listing always has another owner when there is one |
| `Revocations.RefusalListed` | bitswan-automation-server/internal/daemon/acl.go:209-227 | given one listing, the same; a refusal changes nothing |
| `Revocations.ListedAlways` | bitswan-automation-server/internal/daemon/acl.go:179-201 | every listing has the address if and only if all spellings it can show for some owner are that address |
| `Revocations.OtherListedAlways` | bitswan-automation-server/internal/daemon/acl.go:179-201 | the same for another address |
| `Revocations.AnyListing` | bitswan-automation-server/internal/daemon/acl.go:179-201 | there always is a listing |
| `Revocations.RevokeElsewhere` | bitswan-automation-server/internal/daemon/acl.go:209-233 | the owners of other endpoints stay |
| `Revocations.KelvinStaysOwner` | bitswan-automation-server/internal/daemon/acl.go:213-230 | an owner grant spelled with the Kelvin sign: revoking the k succeeds, and k still has the owner role |
| `Revocations.DottedHides` | bitswan-automation-server/internal/daemon/acl.go:179-227 | an owner recorded with a dotted capital I, which lowers like the i of the other owner: revoking i reports success and changes nothing, and revoking the other is refused |
| `Slices.FlatToTree` | bitswan-gitops/app/utils.py:328-356 | the loop with its nested dictionaries builds the grouping |
| `Slices.TreeToFlat` | bitswan-gitops/app/utils.py:315-325 | the nested loops visit every deployment in the order of the contexts, a later one of an id replacing an earlier one, and supply what is missing |
| `Slices.ContextToBp` | bitswan-gitops/app/utils.py:483-499 | each context goes to the business process of its first deployment |
| `SlicePaths.InCopy` | bitswan-gitops/app/utils.py:461-480 | a path copies/<copy>/<bp>/<rest>, with either separator, belongs to the slug of <bp> |
| `SlicePaths.InMain` | bitswan-gitops/app/utils.py:461-480 | a path <bp>/<rest> that does not begin with copies belongs to the slug of <bp> |
| `SlicePaths.TooShort` | bitswan-gitops/app/utils.py:461-480 | with fewer segments, or no path, the context's own name counts |
| `SlicePaths.FirstSegment` | bitswan-gitops/app/utils.py:470 | every path is of one of these shapes |
| `Slices.DeployState.BpSlice` | bitswan-gitops/app/utils.py:502-520 | one business process's contexts and entries |
| `SlicePaths.CopyInSlice` | bitswan-gitops/app/utils.py:483-520 | so the context of a copy is in the slice of the business process it is a copy of, and in no other |
| `SlicePaths.MainInSlice` | bitswan-gitops/app/utils.py:483-520 | and a context of the main repository in that of its own |
| `Slices.DeployState.WriteBpBitswan` | bitswan-gitops/app/utils.py:528-536 | replaces that business process's file and no other |
| `Slices.DeployState.ReadWorkspaceBitswan` | bitswan-gitops/app/utils.py:426-448 | unites the files in the sorted order of their directories, drops empty maps and flattens the tree in the order the contexts came in |
| `Names.SortNames` | bitswan-gitops/app/utils.py:434 | puts the names of the directories, which come in any order, in the order of their code points |
| `SliceLaws.CommitOfGroup` | bitswan-gitops/app/utils.py:334-355 | a group's commit is the last non-empty one a deployment of it carries, or else the one the old tree had |
| `SliceLaws.GroupedWhere` | bitswan-gitops/app/utils.py:328-356 | each deployment is grouped as it is under its context and stage, ungrouped and production when they are missing or empty |
| `SliceLaws.FlatOfGrouped` | bitswan-gitops/app/utils.py:315-356 | grouping then flattening restores exactly the deployments, missing context and stage defaulted |
| `SliceLaws.RoundTrip` | bitswan-gitops/app/utils.py:502-508 | writing slices and aggregating restores tree, commits and non-empty maps if and only if every business process that has something was written, and then the flat deployments |
| `SliceLaws.LastWriteShows` | bitswan-gitops/app/utils.py:426-536 | after any writes from any dictionaries each context shows the last write of its own business process: a write leaves all others as they were |
| `SliceLaws.LastEntryShows` | bitswan-gitops/app/utils.py:426-536 | the same for the maps keyed by business process |
| `SliceLaws.DeploymentUnchanged` | bitswan-gitops/app/utils.py:426-536 | a deployment of another business process, in the last directory that has its id, reads the same after a write if and only if the slice written holds none of its id that reads otherwise, or the directory written sorts before its own |
| `SliceLaws.SharedId` | bitswan-gitops/app/utils.py:426-436 | two business processes with one id: writing b hides the deployment of a if and only if a sorts before b |
| `SliceLaws.CommitStable` | bitswan-gitops/app/utils.py:336-355 | regrouping what was read, in whatever order, keeps a group's commit if and only if its deployments agree on it |
| `SliceLaws.BpStable` | bitswan-gitops/app/utils.py:483-499 | a context keeps its business process, in whatever order it is read, if and only if its deployments agree on it |

## Remarks

Short consequences, proved but not main results: a row that names itself as parent has its direct role
(`AclRuns.SelfParent`), rows that name each other give the same role (`AclRuns.MutualParents`), a role is the maximum over
endpoint and parent unless the two are one (`AclRuns.RoleIsHighest`), an owner's role comes from an owner's row on one of
the two (`AclRuns.NoUpgrade`), and an unexpired address that pruning drops was last seen no later than each that stays
(`DnsCacheRuns.PrunedOldest`).

## Left out

- Sni.ReadClientHello: the handshake types, sockets and what follows a ShortRead are those of one record; a hello split over records is parsed only as far as its first record goes, as in the source.
- DnsCache.Cache.Record: `normalizeHost` is any function; learning from DNS messages (`Learn`) and the forwarder are not modelled, and times are natural numbers without overflow.
- Dial.DialPinned: Go's 64-bit durations do not overflow in the model; `isPublicIP` is any predicate, and each dial's outcome is a parameter.
- Trees.Collision: hashes are 20 bytes, their hexadecimal form and its inverse are not modelled.
- Overlay.TreeHash: directories are finite in-memory trees: unreadable files, symlinks that are followed by a layer's path into a loop, and encodings of names are not modelled.
- TaskQueue.Queue.Submit: ids are numbers in order of submission, which stands for unique uuids; labels, timestamps, results, subscribers and `drain` are not modelled.
- TaskQueueRuns.RunKeepsInv: one event loop for the life of the queue, and no cancellation of the worker or of a polling acquirer.
- TaskQueueRuns.QueueDrains: fair means that what runs ends, acquirers poll and holders release; an acquirer cancelled while it polls would leave its turn to nobody.
- Snapshots.Manager.UpdateTask: records are values, so that a caller changing a returned record behind the manager's back is not captured; messages and timestamps of snapshots are left out.
- Deploys.Manager.UpdateTask: the same; step, error and progress fields are left out, the log is kept.
- SetDeploy.SpawnSetDeploy: the deploy itself, which runs in the background, and the path on which starting it raises are not modelled.
- Requirements.DfsNextNonPassing: the stack the recursion needs is not modelled; `buildTree`, which also shows requirements whose parent is missing, is not modelled.
- RequirementsFile.SerializeThenParse: values with line breaks, which are written raw between triple quotes, can contain the closing quotes or a header; one field of them is read back as `TomlForms.MultiLineBack` says, and no round trip of whole files is claimed.
- Quoting.QuotingRoundTrip: values are sequences of characters; bytes that are not valid UTF-8, which strconv.Quote writes as \x escapes, have no place in them.
- Drain.NoLostRefresh: fair means that sleeps and refreshes end; a refresh that fails is logged and counts as one, as in the source. The twin for tests (bitswan-gitops/app/lifespan.py:318-351) has the same shape and is not repeated.
- Broadcast.EventBroadcaster.Broadcast: messages are opaque, and the queue's waiting readers are takes in the run.
- Acl.Store.RegisterEndpoint: display name, kind, stage, source and timestamps of an endpoint are left out.
- Acl.Store.ApplyShareAction: pending access requests and who granted what are left out; that the caller owns the endpoint is checked before it, by `RoleFor`.
- Revocations.RevokeRefuses: database errors are left out; deletion of endpoints is not in the runs.
- Slices.FlatToTree: an explicit null in a configuration is not told apart from a missing key; the old single-file layout and YAML itself are not modelled.
- Slices.DeployState.BpSlice: `sanitize_automation_name` is any function.
- Snapshot against deploy exclusion, HTTP handlers, DNS parsing, the compile and deploy commands, the profiler, the console and the dashboard: effects on other programs, or short case analysis.
