# Protocols and algorithms of the plugins, modelled and proved

This project models, in Dafny, the parts of the plugins whose behaviour one cannot read off
one function, and proves what each of them is for. `dafny verify dfyconfig.toml` verifies all
of it.

- **Reads at once, with a failure that stops the queue** (`NamespaceReads`, `NamespacePage`).
  The goroutines of a cnpg listing are a transition system with a program counter each; a run
  is any schedule of them. The outcomes every run can return are then settled into a page.
- **The certificate cache and the gate** (`CertCache`, `CertCacheLocks`, `CertCacheGates`,
  `CertCacheAnswers`, `CertCacheRuns`, `CertCacheFailures`, `CertCacheScopes`, `CertCacheOnce`,
  `CertCacheRace`, `CertCacheCalls`, `KubeListing`). Callers of kube's cache go through the map lock, an entry lock held across
  the read, a gate shared with calls that use no cache, and the sweep, which tries entry locks
  and deletes after it has let go of them. The theorems are over any number of callers, any
  scopes and gates, any schedule and any passage of time. `CertCacheCalls` has the same
  cache as objects updated in place, for a call that meets no other.
- **SQL names and statements** (`SqlText`, `SqlNames`). A printer of `U&"..."` forms and an
  in-place rewriter, against a decoder and a lexer written from sections 5.2 and 5.3 of
  ISO/IEC 9075-2 and sections 4.1.1 and 4.1.2.3 of the PostgreSQL documentation. Text is a
  sequence of characters and of stray bytes that belong to none, which is how Go ranges over a
  string.
- **Keyspace paging and the key tree** (`KeyPaging`, `KeyTree`, `KeyTreeRender`,
  `KeyTreeKeys`, `KeyTreeNodes`). A cursor over a byte-ordered keyspace, and a counted tree drawn under a node
  budget and a depth limit; both as values, and the tree as linked nodes updated in place.
- **A streaming digest** (`SnapshotTrailer`). The bytes go to the file at once and to the hash
  32 bytes late, through a buffer shifted over itself; the digest is any function.
- **A flat listing nested by levels** (`ExecutionTree`, `ExecutionSlices`, `BrowserFlow`,
  `FlowAgreement`). The
  tree as a value, the program's own way of building it, pointers into slices that an append
  may move, over an explicit memory, and the second stack that grades the same listing.
- **Rows and verdicts** (`Decimals`, `RowLayout`, `RowVerdict`, `EtcdAlarms`, `EtcdMembers`,
  `EtcdStatus`). What fits a
  row, what a row never loses, and what the word `ok` says of a cluster.

Two places where the code and its words differ, and the model follows the code:

- The comment at plugins/kube/cert.go:49 says that a scope is read at most once in a quarter of
  an hour. That holds of each entry in every run (`CertCacheRuns.ReadsAreALifeApart`), and of
  each scope in every run that takes no entry out of the map under a caller that has found it
  (`CertCacheScopes.ReadsOfAScopeAreALifeApart`). Two steps do: `forgetUnread`, after a failed
  read, and `forgetOld`, between letting go of an old entry and deleting it. So a scope is read
  once in a life of an empty cache exactly when none of its callers can fail while two others
  can read it (`CertCacheRace.OnceExactlyWhen`), and its reads are a life apart for good exactly
  when, as well, no three can read it while a caller of another scope sweeps
  (`CertCacheRace.ApartExactlyWhen`): with nothing failing at all, two callers can then read it at
  one moment (`CertCacheRace.ReadTwiceWithoutFailure`).
- plugins/keycloak/audit.go:275-276 asks for nothing CONDITIONAL above a step. The stack lets
  only sub-flows have steps under them, so a sub-flow under a plain step is taken to be a level
  higher than it is drawn and may be counted as standing above its siblings
  (`BrowserFlow.UnnestedGradeDiffers`). The grade is the rule on the drawn tree, whatever is
  required of whom, exactly when that happens to no plain step (`FlowAgreement.AgreeExactlyWhen`),
  and it never calls enforced what the drawn tree does not enforce
  (`FlowAgreement.NeverOverstates`). Only a server response that nests steps under a plain
  authenticator can reach the difference.

## Model

| member | source | states |
|---|---|---|
| `NamespaceReads.StepInv` | plugins/cnpg/namespaces.go:232-271 | one step of any goroutine keeps the invariant: places taken are the goroutines between taking and giving back, every stored outcome is rightful, the stop flag holds an error some read met |
| `NamespaceReads.ReadsAreBounded` | plugins/cnpg/namespaces.go:229-231 | in every reachable state at most six reads run, at most six ever failed for the connection, and every outcome stored at an index is that scope's own answer or the flag's error |
| `NamespaceReads.DeadConnectionAskedSixTimes` | plugins/cnpg/namespaces.go:225-231 | a connection every read fails on is asked at most six times, for any number of namespaces |
| `NamespaceReads.FlagSticks` | plugins/cnpg/namespaces.go:251-265 | once the flag is up its error never changes and no further read begins |
| `NamespaceReads.RunsAreShort` | plugins/cnpg/namespaces.go:246-268 | no schedule is longer than six steps for each namespace |
| `NamespaceReads.SomeoneCanStep` | plugins/cnpg/namespaces.go:246-270 | no reachable state is stuck, and giving a place back never waits |
| `NamespaceReads.RunsComplete` | plugins/cnpg/namespaces.go:246-270 | every run can be carried on to one that returns |
| `NamespaceReads.PlacesAreGivenBack` | plugins/cnpg/namespaces.go:249-250 | when all goroutines have ended every place is free |
| `NamespaceReads.EveryScopeIsAnswered` | plugins/cnpg/namespaces.go:223-231 | every call returns one outcome for each scope, in the order of the scopes: its own answer, or the one connection failure that some read of the call met |
| `NamespaceReads.FanOutIsTheLoop` | plugins/cnpg/namespaces.go:223-271 | while no read fails for the connection every schedule returns what reading each scope once, in order, returns: each scope's own answer and error |
| `NamespacePage.Scopes` | plugins/cnpg/namespaces.go:144-156 | one selection for each namespace of a list and the selection itself otherwise |
| `NamespacePage.Without` | plugins/cnpg/namespaces.go:158-176 | the names outside the unread ones, all of them in order; a single one left becomes the one namespace |
| `NamespacePage.Settle` | plugins/cnpg/namespaces.go:282-328 | the page or the error of a listing: the unread scopes are those that failed, in order; the error of several is that of the first scope that met a 401 whichever others answered, else, when nothing answered, that of the first failure of the connection, else none |
| `NamespacePage.FirstMeans` | plugins/cnpg/namespaces.go:309-322 | the error chosen is the first, in the order of the scopes, of the kind asked for |
| `NamespacePage.ErrorExactlyWhen` | plugins/cnpg/namespaces.go:282-322 | a page of several scopes is an error exactly when some scope met a 401, or nothing answered and some failure is the connection's |
| `NamespacePage.PageErrorMeans` | plugins/cnpg/namespaces.go:298-322 | which error: the first 401's, else, with nothing answered, the first connection failure's |
| `NamespacePage.LeftAnswered` | plugins/cnpg/namespaces.go:158-170 | distinct namespaces less those that failed are those that answered, in order |
| `NamespacePage.ReadsTheAnswered` | plugins/cnpg/namespaces.go:323-327 | the selection of a page reads exactly the named namespaces that answered |
| `NamespacePage.ListSeveral` | plugins/cnpg/backup.go:279-286 | readEach and settle together, for every schedule: which error it is, and that some read of this call met it; of a page, the namespaces read are those that answered and the unread ones those that did not, each in the order they were named |
| `CertCacheRuns.EveryAnswerIsARead` | plugins/kube/cert.go:206-232 | in every interleaving the certificates given are a successful read of exactly the caller's scope, the caller's own unless reused, and a reused one is younger than a quarter of an hour |
| `CertCacheFailures.EveryFailureHasItsCause` | plugins/kube/kubectl.go:306-388 | in every interleaving a caller told of a failure either made its call and is told how it failed, or was kept out at its gate: told it was cancelled only if its own context was done, and otherwise what the gate was down with, which is how another caller's call there failed for the whole cluster |
| `CertCacheFailures.GoodCallersAreAnswered` | plugins/kube/kubectl.go:306-388 | a caller whose read answers, never cancelled and its gate never down, is given certificates; one let through its gate is given what its own read answered, and one that was not is never given a read of its own |
| `CertCacheRuns.ReadsAreALifeApart` | plugins/kube/cert.go:212-231 | successful reads through one entry never begin within a life of the end of the one before |
| `CertCacheRuns.OneReadAtATime` | plugins/kube/cert.go:99-106 | no two callers ever read through one entry at once |
| `CertCacheRuns.NoDeadlock` | plugins/kube/cert.go:132-160 | until all callers have answered one of them can go on, for any callers, scopes and gates |
| `CertCacheRuns.HoldersGoOn` | plugins/kube/cert.go:132-152 | no holder of the map, of a place at a gate, or of a lock the sweep tried ever waits |
| `CertCacheRuns.EverythingIsReleased` | plugins/kube/cert.go:212-232 | when all have answered the map, every entry and every place are free |
| `CertCacheRuns.EveryRunEnds` | plugins/kube/cert.go:113-232 | no schedule goes on for ever |
| `CertCacheRuns.PlacesAreConserved` | plugins/kube/kubectl.go:363-402 | of every gate, in every interleaving: places taken are the calls between enter and leave, never more than its width, leave never waits, and no more calls than it has places failed for the whole cluster |
| `CertCacheRuns.DeadClusterAskedWidthTimes` | plugins/kube/kubectl.go:330-345 | a cluster every call behind one gate fails on gets at most as many subprocesses from there as the gate is wide, whatever the callers of other gates meet |
| `CertCacheRuns.DownSticks` | plugins/kube/kubectl.go:390-402 | a gate that is down keeps its first failure and lets no further call through |
| `CertCacheScopes.ReadsOfAScopeAreALifeApart` | plugins/kube/cert.go:137-160 | in every run, failing and cancelled callers included, that never takes a scope's entry out of the map under another caller, successful reads of the scope are a life apart, whatever entries they went through |
| `CertCacheScopes.CloseReadsTookARemoval` | plugins/kube/cert.go:124-131 | two reads of a scope closer than a life always took such a removal: an entry deleted while another caller had found it and was not done with it |
| `CertCacheRace.OnceExactlyWhen` | plugins/kube/cert.go:49-57 | for any callers, over all schedules or those in which nobody is cancelled and no gate goes down: a scope is read at most once in a life of an empty cache if and only if none of its callers can fail while two others can read it |
| `CertCacheRace.ApartExactlyWhen` | plugins/kube/cert.go:49-57 | and its reads are a life apart in every run, however long, if and only if, as well, no three callers can read it while a caller of another scope sweeps |
| `CertCacheOnce.OnceInALife` | plugins/kube/cert.go:49-57 | the sufficient half within a life: one scope is read once, by all its callers together |
| `CertCacheOnce.ApartSufficient` | plugins/kube/cert.go:137-160 | the sufficient half over runs of any length: with two readers, a sweep that tears the scope leaves only reads that are a life apart |
| `CertCacheRace.ReadTwiceInALife` | plugins/kube/cert.go:154-160 | the necessary half: any callers of a scope of whom one can fail and two others can read it have a schedule in which the two read it at one moment |
| `CertCacheRace.ReadTwiceWithoutFailure` | plugins/kube/cert.go:137-150 | and any three callers that can read it, with one of another scope to sweep, have one in which nothing fails and two of them read it at one moment |
| `CertCacheCalls.CertReads.TlsCerts` | plugins/kube/cert.go:212-232 | one call that meets no other, its scope named or not: what it answers and, scope by scope, the whole of what is kept after it |
| `CertCacheCalls.CertReads.ReadAndKeep` | plugins/kube/cert.go:223-231 | the read made: a failure leaves nothing unread behind, a success is kept and the old reads go |
| `CertCacheCalls.CertReads.CertEntryFor` | plugins/kube/cert.go:113-122 | the scope's entry, made and remembered if there is none, other scopes as they were |
| `CertCacheCalls.CertReads.ForgetOld` | plugins/kube/cert.go:137-150 | every entry older than a life goes, but for the caller's own, and no other |
| `CertCacheCalls.CertReads.ForgetUnread` | plugins/kube/cert.go:154-160 | the caller's entry goes exactly when it is still the scope's and never held a read |
| `CertCacheCalls.CertScopeOf` | plugins/kube/cert.go:170-204 | which context and namespace a read is kept under, when none can be named, and that the pinned selection covers that scope whatever the kubeconfig says later |
| `KubeListing.ReadEach` | plugins/kube/overviewlist.go:123-133 | the merge: the items of each scope that answered stand together behind those of the scopes before it, each that did not is named with its own error, and nothing else is there; an error, the first, exactly when nothing answered |
| `KubeListing.ItemsInOrder` | plugins/kube/overviewlist.go:123-133 | where each scope's items stand in the listing, and that it holds no other |
| `KubeListing.FailedInOrder` | plugins/kube/overviewlist.go:123-133 | where each scope that did not answer is named, and with what |
| `KubeListing.MergeCertReads` | plugins/kube/cert.go:260-271 | each read's certificates together, in the order of the reads; reused exactly when some read was, and then as old as the oldest of those |
| `SqlNames.WriteUnicodeEscaped` | plugins/pg/sqlnames.go:53-77 | the loop prints the escaped form |
| `SqlNames.EscapeRoundTrip` | plugins/pg/sqlnames.go:47-77 | decoding what stands between the quotes gives the name back: doubled quotes, doubled backslashes, four and six digit escapes |
| `SqlNames.EscapeShows` | plugins/pg/sqlnames.go:47-50 | every character printed shows as itself |
| `SqlNames.EscapedIsRead` | plugins/pg/sqlnames.go:53-77 | the whole U& form is read as one token, the name, whatever follows it |
| `SqlNames.NameIsRead` | plugins/pg/sqlnames.go:40-45 | a name is read back as itself in either spelling |
| `SqlNames.SqlIdentifier` | plugins/pg/sqlnames.go:32-38 | the parts joined with dots: each that reads as itself in quotes with its quotes doubled, each other one as a U& form that names it, bytes that are no text as they are listed; and of parts that are text everything printed shows as itself |
| `SqlNames.NamePrints` | plugins/pg/sqlnames.go:40-45 | which of the spellings a name gets |
| `SqlNames.NameShows` | plugins/pg/sqlnames.go:24-31 | a name of text shows as itself in either: no raw newline, no raw escape sequence |
| `SqlNames.IdentifierRoundTrip` | plugins/pg/sqlnames.go:22-38 | a qualified name is read back as its parts, whatever they hold |
| `SqlNames.WriteOut` | plugins/pg/sqlnames.go:88-122 | the scan ends and writes the specified rewriting |
| `SqlNames.WriteToken` | plugins/pg/sqlnames.go:100-120 | one quoted token: left exactly as it came when what it holds shows as itself, written as a U& form that names the same when it does not, as it is listed when it is no text, and copied to the end when it is not closed |
| `SqlNames.ScanInner` | plugins/pg/sqlnames.go:100-113 | the inner loop finds the end of the token and what it holds |
| `SqlNames.RewritingKeepsTokens` | plugins/pg/sqlnames.go:79-122 | the scan's result reads as the same tokens, also in the middle of a statement |
| `SqlNames.WrittenOutKeepsMeaning` | plugins/pg/sqlnames.go:79-122 | the output lexes to the same raw characters, identifiers and strings as the input |
| `SqlNames.MeaningKeptExactlyWhen` | plugins/pg/sqlnames.go:47-56 | with stray bytes only inside closed quotes, meaning is kept exactly when there are none there either |
| `SqlNames.WrittenOutIsIdentity` | plugins/pg/sqlnames.go:84-87 | the identity when every closed quote shows as itself |
| `SqlNames.WrittenOutIsIdempotent` | plugins/pg/sqlnames.go:79-122 | idempotent when every closed quote holds storable text |
| `SqlNames.WrittenOutShows` | plugins/pg/sqlnames.go:79-87 | no odd character is left when every one stood in a closed quote |
| `KeyPaging.LeastGreater` | plugins/etcd/kv.go:106-133 | a key with a zero byte behind it is the least key greater than it |
| `KeyPaging.RangeIsPrefix` | plugins/etcd/kv.go:106-133 | from the prefix on, the keys below its range end are exactly its extensions, 0xff bytes included |
| `KeyPaging.RequestIsExact` | plugins/etcd/kv.go:97-133 | the range asked for is exactly the keys of the prefix past the cursor, wherever the cursor sorts |
| `KeyPaging.KvListTable` | plugins/etcd/kv.go:148-194 | the rows of a page and its cursor, the last row, exactly when there are more |
| `KeyPaging.PageIsExact` | plugins/etcd/kv.go:97-194 | a page is the first `limit` keys with the prefix past the cursor |
| `KeyPaging.PagingIsExact` | plugins/etcd/kv.go:97-194 | following the cursor ends and shows every key with the prefix and no other, ascending, each once |
| `KeyTree.SplitKey` | plugins/etcd/kv.go:267-279 | the in-place compaction keeps exactly the non-empty segments, in order |
| `KeyTree.SegmentsRoundTrip` | plugins/etcd/kv.go:267-279 | the segments of a joined path are the path |
| `KeyTree.SegmentsAreNames` | plugins/etcd/kv.go:267-269 | no segment is empty or holds a slash, and a leading slash names no level |
| `KeyTree.SegmentsAtSlash` | plugins/etcd/kv.go:267-279 | at any slash, doubled or not, the segments are those before it and those after it |
| `KeyTree.InsertCounts` | plugins/etcd/kv.go:290-307 | an insertion adds one to every node on its way, makes what was missing of it and marks its end |
| `KeyTree.NodeCounts` | plugins/etcd/kv.go:281-307 | a node counts the keys whose segments extend its path, is there exactly when there is one and a leaf exactly when one ends there |
| `KeyTree.NodeIsItsChildren` | plugins/etcd/kv.go:281-307 | a node's count is the keys that end there plus what its children count |
| `KeyTree.OrderDoesNotMatter` | plugins/etcd/kv.go:290-307 | the same keys in any order of insertion build the same tree |
| `KeyTreeNodes.TreeNode.Insert` | plugins/etcd/kv.go:290-307 | the linked nodes, updated in place, are the tree the insertion specifies |
| `KeyTreeNodes.TreeRender.Expand` | plugins/etcd/kv.go:316-358 | the drawing of linked nodes is the specified drawing, counter and stop flag included |
| `KeyTreeNodes.SortNames` | plugins/etcd/kv.go:317-332 | levels before leaves, each in byte order, whatever the order of the map |
| `KeyTreeNodes.TreeOfKeys` | plugins/etcd/kv.go:236-247 | the loop over the keys: the linked nodes hold the first `limit` of them, and whether there were more |
| `KeyTreeNodes.KeyTreeView` | plugins/etcd/kv.go:235-265 | of the first `limit` keys, with no word of the tree: each line stands for a front of some key's segments below the prefix and counts the keys that go through it; none comes twice, levels come before leaves in byte order, and unless the node limit cut it every front down to the depth is there; and which of the two limits the detail names |
| `KeyTreeRender.OneOrder` | plugins/etcd/kv.go:321-332 | a level has one sorted order |
| `KeyTreeRender.ExpandDraws` | plugins/etcd/kv.go:316-358 | under any budget left the drawing is that many first nodes of the unbounded picture, says it stopped exactly when something was cut, and has at most one ellipsis a level |
| `KeyTreeRender.ItemsStandForNodes` | plugins/etcd/kv.go:338-355 | the unbounded picture holds the nodes down to the depth limit and no other, each with its count |
| `KeyTreeRender.ItemsAreInOrder` | plugins/etcd/kv.go:321-332 | and each once, in drawing order |
| `KeyTreeRender.DrawingIsComplete` | plugins/etcd/kv.go:235-265 | a whole drawing: at most 500 nodes; stopped, exactly 500 and at most `depth` ellipses; not stopped, every node down to the limit once, each count the number of keys under it |
| `KeyTreeKeys.DrawingTellsOfKeys` | plugins/etcd/kv.go:235-265 | the same of a drawing of any keys: the nodes shown are the fronts of the keys less the prefix, with their counts, and a leaf is where no key goes further |
| `KeyTreeKeys.DrawnInOrder` | plugins/etcd/kv.go:321-332 | of two nodes of a level, one where no key ends comes before one where a key does, and otherwise the lesser name |
| `SnapshotTrailer.ChunkingDoesNotMatter` | plugins/etcd/snapshot.go:381-407 | the window depends on the bytes written and not on how they were cut into writes |
| `SnapshotTrailer.TrailerHasher.Write` | plugins/etcd/snapshot.go:392-407 | hashed bytes and window stay what the file holds, its last 32 apart, short writes included, through append and the overlapping copy |
| `SnapshotTrailer.TrailerHasher.Append` | plugins/etcd/snapshot.go:396-400 | append, in place or into a larger array |
| `SnapshotTrailer.TrailerHasher.ShiftDown` | plugins/etcd/snapshot.go:401-404 | the overlapping copy drops the front of the window |
| `SnapshotTrailer.TrailerHasher.Verify` | plugins/etcd/snapshot.go:409-429 | the verdict is that on the bytes in the file: whole pages and 32 bytes are compared, and a match carries the digest computed and found |
| `SnapshotTrailer.MatchExactlyWhen` | plugins/etcd/snapshot.go:370-380 | a match is said of whole 512-byte pages followed by their digest and of nothing else; no digest exactly when the length says so |
| `SnapshotTrailer.VerdictSays` | plugins/etcd/snapshot.go:409-429 | each verdict exactly when the length and the last 32 bytes say it |
| `SnapshotTrailer.CutStreamReadsAsNoDigest` | plugins/etcd/snapshot.go:409-417 | a stream cut short reads as one without a digest exactly when what is missing is no whole number of pages |
| `SnapshotTrailer.Copy` | plugins/etcd/snapshot.go:277-284 | the copy succeeds exactly when the stream ends cleanly and every write took all it was given, and the file holds what was copied |
| `SnapshotTrailer.CopiedToFirstBad` | plugins/etcd/snapshot.go:277-284 | what is copied is the stream up to the first bad write, and of that what was taken |
| `SnapshotTrailer.WriteSnapshot` | plugins/etcd/snapshot.go:256-318 | each outcome exactly when: the file existed, could not be made, was cut short, not finished, contradicted by its digest, or written; a receipt carries the stream's own verdict, otherwise nothing is left, and no other file is ever touched |
| `ExecutionTree.TreeFlattens` | plugins/keycloak/flow.go:124-147 | drawing the tree gives the listing back in order, each level clamped to one below the step before it |
| `ExecutionTree.NestedKeepsLevels` | plugins/keycloak/flow.go:124-136 | a listing that never jumps down more than one level keeps its levels |
| `ExecutionTree.FlattenIsInjective` | plugins/keycloak/flow.go:124-147 | no other tree is drawn the same |
| `ExecutionTree.AboveIsNearest` | plugins/keycloak/flow.go:124-127 | what stands above a step is, at each level, the nearest step before it at that level |
| `ExecutionTree.LastAtIsLast` | plugins/keycloak/flow.go:124-127 | the nearest step before at a level: at that level, and none at it after |
| `ExecutionSlices.AppendBelow` | plugins/keycloak/flow.go:137-145 | an append through the pointer stack, moved or in place, grows the tree at that depth and leaves a live stack |
| `ExecutionSlices.PointersAreLive` | plugins/keycloak/flow.go:130-145 | each pointer of the stack points at its node on the rightmost spine, where that node is now |
| `ExecutionSlices.BuildTree` | plugins/keycloak/flow.go:128-147 | the loop over pointers into slices that may be reallocated leaves exactly that tree in memory |
| `ExecutionSlices.HoldsOneTree` | plugins/keycloak/flow.go:128-147 | and that is the only tree memory holds there |
| `BrowserFlow.GradeBrowserFlow` | plugins/keycloak/audit.go:274-312 | for every listing the grade is the rule, REQUIRED and nothing above it CONDITIONAL, on the tree in which only sub-flows have steps under them; a failure exactly when every step is a sub-flow, no second factor or switched off; and the names are those of the steps that ask everyone, or of those that let someone, in order |
| `BrowserFlow.FailExactlyWhen` | plugins/keycloak/audit.go:291-311 | no second factor is enabled exactly when every step is a sub-flow, another step or DISABLED |
| `BrowserFlow.GradeNames` | plugins/keycloak/audit.go:298-309 | OK exactly when a step asks everyone; which steps OK and Warn name |
| `BrowserFlow.StackIsTheRule` | plugins/keycloak/audit.go:281-299 | where a step is looked at the stack has a CONDITIONAL in it exactly when something above the step is |
| `BrowserFlow.StackIsTheSpine` | plugins/keycloak/audit.go:281-290 | for a listing that deepens only under sub-flows the stack is the CONDITIONAL flags along the rightmost spine of the drawn tree |
| `BrowserFlow.RenestedExactlyWhen` | plugins/keycloak/audit.go:284-290 | that tree's listing is the listing itself exactly when levels deepen only under sub-flows |
| `BrowserFlow.NestedGrade` | plugins/keycloak/audit.go:274-312 | and the grade is then the rule on the very tree executionTree draws |
| `FlowAgreement.AgreeExactlyWhen` | plugins/keycloak/audit.go:280-299 | the grade is the rule on the drawn tree, whatever is required of whom, if and only if no sub-flow stands above a plain step as graded without standing above it as drawn: a condition on levels and sub-flows alone |
| `FlowAgreement.NeverOverstates` | plugins/keycloak/audit.go:300-312 | for every listing OK is never answered unless the rule on the drawn tree is OK, and the two say together that no second factor is enabled |
| `FlowAgreement.AboveByLevels` | plugins/keycloak/flow.go:124-147 | what stands above a step in the drawn tree, read off the levels |
| `FlowAgreement.SubFlowsStayAbove` | plugins/keycloak/audit.go:281-290 | a sub-flow above a step as drawn is above it as graded |
| `FlowAgreement.NestedIsAgreeable` | plugins/keycloak/audit.go:281-290 | a listing that deepens only under sub-flows meets the condition |
| `BrowserFlow.UnnestedGradeDiffers` | plugins/keycloak/audit.go:284-299 | otherwise it need not be: a listing graded Warn whose drawn tree meets the rule |
| `RowLayout.FitList` | plugins/kube/overviewrows.go:757-777 | the most items that fit, the rest counted |
| `RowLayout.FittedKeeps` | plugins/kube/overviewrows.go:757-777 | a list fits its room or says nothing, unless it must, when it begins with its first item and is over only if no prefix fits |
| `RowLayout.FittedLists` | plugins/kube/overviewrows.go:757-777 | a list is its first items with commas between them, the most that fit, and behind them in decimal how many it left out |
| `RowLayout.JoinOfTwo` | plugins/kube/overviewrows.go:767-769 | two lists are joined by the comma that joins their items |
| `Decimals.DecimalIsRead` | plugins/kube/overviewrows.go:747-755 | a count is read as the number it counts |
| `RowLayout.RowIn` | plugins/kube/overviewrows.go:725-735 | the loop lays the parts, each given the room that is left |
| `RowLayout.RowGrows` | plugins/kube/overviewrows.go:725-735 | the row grows by one part at a time, in their order: each is asked with the room the row so far leaves it and stands behind a separator, unless it says nothing |
| `RowLayout.RowFits` | plugins/kube/overviewrows.go:717-735 | with parts that keep to their room a row is no wider than its width or than its first part, which is always in front |
| `RowLayout.PartsAreModest` | plugins/kube/overviewrows.go:737-745 | an optional part and an optional list keep to their room; the part says its text wherever it fits, and the list its first items and how many it left out |
| `RowLayout.WhereIsShort` | plugins/kube/overviewlist.go:134-156 | for at most thirty namespaces the words naming them are at most 24 runes |
| `RowLayout.WhereSays` | plugins/kube/overviewlist.go:134-156 | the namespaces by name when that is at most 24 runes, and by their number when it is not |
| `RowLayout.PhraseSays` | plugins/kube/overviewrows.go:261-273 | every phrase says those words whole, and is the longest of the three that fits |
| `RowLayout.RowWith` | plugins/kube/overviewrows.go:293-316 | with unread namespaces, and whatever the parts demand, a row is at most 65 runes and says the words naming them; the whole sentence where it fits, the row cut only when not even the shortest words fit behind it, and the first reason where 16 runes are left for it |
| `RowLayout.UnreadKind` | plugins/kube/overviewrows.go:242-257 | the row of a kind nothing was read of is at most 65 runes; of several namespaces it begins with the sentence that names them, and the reason is what is cut |
| `RowVerdict.ByRankIsStable` | plugins/kube/overviewrows.go:168-168 | clauses are ordered by rank, those of one rank as they came |
| `RowVerdict.Verdict` | plugins/kube/overviewrows.go:158-179 | over the rows: ok exactly when none has a clause, fail exactly when a clause of some row is a failure or nothing could be read, and the text begins with the first clause, by row and then by place, of the worst rank there is; behind it as many clauses as fit a row and the count of the rest |
| `RowVerdict.VerdictNamesTheWorst` | plugins/kube/overviewrows.go:158-179 | of the clauses collected: ok exactly when there is none, fail exactly when one is a failure or nothing could be read, and the first of the worst is named whole |
| `RowVerdict.VerdictFits` | plugins/kube/overviewrows.go:177-179 | the verdict is no wider than a row unless it is its first clause alone, and lists no fewer clauses than fit |
| `RowVerdict.FirstInRows` | plugins/kube/overviewrows.go:158-168 | the first clause of a rank among those collected is the first by row and then by place |
| `RowVerdict.FirstWorst` | plugins/kube/overviewrows.go:168-172 | the clause the order begins with |
| `EtcdMembers.AskMembers` | plugins/etcd/members.go:80-147 | each row from its member's own answer, the endpoint's from the one in hand; who is called: started, not the endpoint, no route against it, and an address credentials may go to |
| `EtcdMembers.LeaderOf` | plugins/etcd/cluster.go:148-159 | the leader the endpoint names, with the status of its own row |
| `EtcdMembers.WellExactlyWhen` | plugins/etcd/members.go:360-405 | a member is well exactly when it answered, names the endpoint's leader, reports nothing, shares the leader's term and trails neither it nor its own log by 5000 entries |
| `EtcdMembers.JudgedExactlyWhen` | plugins/etcd/members.go:360-405 | each of the other judgements exactly when the row and the leader's say so, entries included |
| `EtcdMembers.QuorumCount` | plugins/etcd/members.go:407-424 | voters and those that answered with a leader, said exactly when there are voters and all were asked |
| `EtcdMembers.AnsweringVote` | plugins/etcd/members.go:407-424 | as many answer as vote exactly when every voter answers with a leader |
| `EtcdAlarms.ReadExactlyWhen` | plugins/etcd/cluster.go:196-199 | an error is read as an alarm exactly when it spells one, from its start to its end, of the member and with the name it spells, and stays what it is otherwise |
| `EtcdAlarms.AlarmRoundTrip` | plugins/etcd/cluster.go:261-284 | an alarm spelled with its member in decimal is read back as that member and that alarm |
| `EtcdStatus.AlarmsRow` | plugins/etcd/cluster.go:258-284 | one failure for each error but the missing leader's, read as an alarm where it spells one |
| `EtcdStatus.QuorumRow` | plugins/etcd/cluster.go:286-321 | the count, the least majority a write needs, the members that are down and no others, and a warning for each member that was to be asked and is not well, with its own id, in order |
| `EtcdStatus.MembersArePicked` | plugins/etcd/cluster.go:302-311 | the warnings are those of the members not well, and the unreachable those that started and did not answer, each in order |
| `EtcdStatus.Worst` | plugins/etcd/cluster.go:177-194 | the first of the worst findings, ok exactly when there is none |
| `EtcdStatus.CompactOverview` | plugins/etcd/cluster.go:205-256 | the status: which finding it is, over alarms, leader, storage and members, and what ok says |
| `EtcdStatus.StandingIsSaid` | plugins/etcd/cluster.go:177-256 | the status is the first alarm, else the missing leader, else the full quota, else the unread list or the first member not well, and else the quota that is near |
| `EtcdStatus.OkExactlyWhen` | plugins/etcd/cluster.go:205-256 | ok exactly when no alarm is raised, there is a leader, the member list was read, every member asked is well and storage grades nothing |
| `EtcdStatus.OkMeansAnswering` | plugins/etcd/cluster.go:205-256 | ok with a counted quorum: every voter answered and is well, so answered = voters, at least what a write needs |
| `EtcdStatus.FailExactlyWhen` | plugins/etcd/cluster.go:216-220 | the status fails exactly for an alarm, a missing leader or a full quota: members down are a warning, however many |
| `EtcdStatus.OverviewView` | plugins/etcd/cluster.go:71-94 | the whole page: ok with a counted quorum says, of every voter listed, that it was called or is the endpoint, answered, names the endpoint's leader and reports nothing, and, when the leader is among them, that it is on the leader's term and within its log; and which finding it is otherwise, from the members' answers or, when no list was served, from the endpoint's own |

## Left out

- Running kubectl, gRPC and HTTP, timeouts and the reading of their errors: a read is a step that returns any result, a failure carries its code, and whether a code is the cluster's is modelled.
- Locks and goroutines as language objects: the concurrent code is a transition system over its synchronisation points, and what a thread does between two of them is one step.
- CertCacheCalls.CertReads.TlsCerts: one call at a time, so the caller's own entry is the only one the sweep cannot lock; calls that meet are the subject of `CertCacheRuns`.
- CertCacheRace.ApartExactlyWhen: runs begin with an empty cache, as the program does.
- KubeListing.ReadEach: the merge of what the goroutines read; that they run at once behind a gate is `CertCacheRuns`.
- The sort and the de-duplication of namespace names, and the check that each is a DNS label: library calls and a pattern.
- JSON, PEM and X.509 parsing, the state of a certificate, SHA-256, and the merging of pods, deployments and quotas into a page.
- pgx's Sanitize is modelled as the doubling of quotes; a NUL in a name, which PostgreSQL cannot hold, is outside the round trips.
- SqlNames.WrittenOutKeepsMeaning: statements with E'...' strings, dollar quotes, comments or U& forms of their own, or with a string continued on another line (section 4.1.2.1 of the PostgreSQL documentation), are outside what the rewriter is handed (`Handled`), as the server does not generate them.
- plugin.ListedName is a parameter: any predicate on characters that holds of printable ASCII, and any spelling of text that is not valid.
- etcd's range end of a prefix is modelled from its documented rule, since its source is not part of this model.
- KeyPaging.PagingIsExact: over a keyspace that does not change between the pages.
- Labels, hints and wording of views: a drawn node is its name, its count and whether it is expanded; a finding is its grade and what it is about.
- ExecutionSlices.BuildTree: levels are naturals, as Keycloak's are; a negative one would make the program stop.
- Go's integer widths: the counters and indices here do not reach them.
- The growth of a slice under append: any capacity that holds what is appended.
- SnapshotTrailer.WriteSnapshot: whether the removal of a bad file works is a parameter, since the code does not look.
- The share of the quota is graded by an abstract function, because the percentage is a rounded float.
- RowLayout.RowWith: the clip of a text to a width is any function that returns no more than it was told; a count of namespaces above thirty is refused before a row is laid.
- The remaining rows of the kube overview, the realm audit apart from the browser flow, the cnpg status wording, and the docker and mysql plugins, which would only add easy members or repeat these.
