# Market-data stack: a Dafny model of its deterministic core

This project models, in Dafny, the sequential logic underneath a
Rust/Python market-data stack made of four parts.

- **agora**, the service registry. It covers:
  - the hierarchical path tree (`TreeNode`, both the `Arc`/`Mutex` version and the older `Rc`/`RefCell` one), with its lookups, removals, parent and path, and its JSON-like text form with the parser that reads it back;
  - the metaserver's registry (`ServerState`) with its path validators, registration, confirmation, removal and pruning;
  - the legacy registry;
  - path normalisation (`strip_and_verify`) and the error-message format;
  - the gateway's URL-to-socket routing rule;
  - `AgorableOption`;
  - the two IPv6 address allocators, with the text form the Rust standard library prints for an address.
- **argus**, the exchange recorder. It covers:
  - the validated scalars (symbol, price, size);
  - the Hyperliquid symbol universe and its bidirectional symbol map;
  - the publisher's versioned staging paths and relay bookkeeping;
  - the webstream workers' publisher tables and message dispatch;
  - the message converters of Hyperliquid and Binance;
  - the list offsets of the order-book record batch;
  - the archiver's temp-file parsing, latest-timestamp merge, flush selection and hive paths.
- **mnemosyne**, the dataset layer. It covers:
  - the Binance last-trade book: timestamp normalisation, URLs and paths, the peg check, the universe discovery;
  - the S3 listing helpers in Rust and Python;
  - the `DatasetType` path tables in Rust and Python, and their agreement;
  - the `ByDateDataview`/`ByDateDataset` validation cache;
  - the parallel-map helpers.
- **atlas and metis**, the research tools. They cover:
  - the CTDP filter table and metadata;
  - the einops pattern helpers;
  - the feature pipeline's regex grouping and `match_info`;
  - the fit/forward state machine and constructor guards of the feature operations.

## Modelling conventions

- **Values and objects.** Pure code is functions on datatypes. An object whose methods change its fields is a class. Its methods are proved against functions that describe the new state, and the properties are lemmas about those functions.
- **Trees.** A Rust tree of shared nodes is a tree value, and a node is named by the path of names leading to it.
- **Inputs.** The clock, the random generator, regex matching, ping results, network fetches, file-system checks, JSON decoding and `str::parse::<f64>` enter as parameters or as fields that carry their outcome.
- **Errors.** A panic or a Python exception is a `Failure`. Python's `warnings.warn` calls are an `emitted` list returned next to the result.
- **Numbers.** Integers are unbounded; the fixed-width ranges the code relies on are stated explicitly. A float is a finite real, an infinity or NaN.

## Model

| member | source | states |
|---|---|---|
| Trees.ChildIndex | agora/src/utils/pathtree.rs:201-211 | the child `get_immediate_child` finds is the first of that name; there is none exactly when no child carries the name |
| Trees.ChildIndexByNames | agora/src/utils/pathtree.rs:201-211 | which child is found depends only on the children's names |
| Trees.WalkSnoc | agora/src/utils/pathtree.rs:79-85 | one more segment resolves exactly when the node reached has a child of that name, and it reaches that first child |
| Trees.HasPrefix | agora/src/utils/pathtree.rs:79-85 | every prefix of a path that resolves also resolves |
| Trees.WalkAppend | agora/src/utils/pathtree.rs:79-85 | resolving `a` then `b` is resolving `b` from the node `a` reaches |
| Trees.GetChildIsWalk | agora/src/utils/pathtree.rs:71-88 | the early return for "" agrees with walking the non-empty segments of the split |
| Trees.DoubleSlashSkipped | agora/src/utils/pathtree.rs:76-82 | "a//b" resolves to the same node, or fails at the same segment, as "a/b" |
| Trees.TrailingSlashSkipped | agora/src/utils/pathtree.rs:76-82 | a trailing '/' does not change what a path resolves to |
| Trees.LeadingSlashSkipped | agora/src/utils/pathtree.rs:76-82 | a leading '/' does not change what a path resolves to |
| Trees.GetChildLoop | agora/src/utils/pathtree.rs:71-88 | the loop over the split pieces, skipping empty ones, returns the node (or the missing segment) the path specifies |
| Trees.SetAtWalk | agora/src/utils/pathtree.rs:14-18 | changing one node in place is seen through its ancestors; nodes beside it are untouched and its ancestors keep their child names |
| Trees.AddChildAt | agora/src/utils/pathtree.rs:61-66 | `add_child` appends the child as the last child of the node and changes nothing else at it |
| Trees.AddChildHas | agora/src/utils/pathtree.rs:61-66 | adding a child of a new name adds exactly the paths through it; only that node's child names grow, by the new name at the end |
| Trees.AddChildBelow | agora/src/utils/pathtree.rs:61-66 | the same, seen from the node that receives the child |
| Trees.Without | agora/src/utils/pathtree.rs:213-217 | `retain` drops exactly the children of that name; the list shrinks exactly when the name was present |
| Trees.WithoutChildIndex | agora/src/utils/pathtree.rs:217 | after the removal every other name still finds the same child |
| Trees.RemoveNamedAt | agora/src/utils/pathtree.rs:213-225 | the node's children become its old children without that name |
| Trees.RemoveNamedHas | agora/src/utils/pathtree.rs:213-225 | removing the children of one name removes exactly the paths through them; only that node's child names change |
| Trees.RemoveNamedBelow | agora/src/utils/pathtree.rs:213-225 | the same, seen from the node that loses the children |
| Trees.RenderLines | agora/src/utils/pathtree.rs:176-199 | `display_tree` writes exactly one line per node when no name holds a newline |
| PathTree.NewNode | agora/src/utils/pathtree.rs:44-51 | a new node succeeds exactly when the name holds no '/', and is a leaf of that name |
| PathTree.GetImmediateChild | agora/src/utils/pathtree.rs:201-211 | found exactly when some child has the name; the found node is the one one segment further down; otherwise the "child 'x' not found under 'y'" error |
| PathTree.AddChildren | agora/src/utils/pathtree.rs:53-59 | new leaves are appended in the order of the names; a name with '/' makes it fail |
| PathTree.GetChild | agora/src/utils/pathtree.rs:71-88 | succeeds exactly when every non-empty segment finds a child; "" returns the node itself |
| PathTree.HandleEndsWithName | agora/src/utils/pathtree.rs:84 | the node reached by a path carries the path's last segment as its name |
| PathTree.Parent | agora/src/utils/pathtree.rs:113-118 | an error exactly for the root; otherwise the node one segment up |
| PathTree.Root | agora/src/utils/pathtree.rs:120-125 | following parents from any node ends at the top node |
| PathTree.NodePath | agora/src/utils/pathtree.rs:135-141 | every path starts with "/" and the root's name |
| PathTree.NodePathIsJoin | agora/src/utils/pathtree.rs:135-141 | a node's path is "/" followed by the root name and the segments to the node, joined with '/' |
| PathTree.NodePathStep | agora/src/utils/pathtree.rs:135-141 | below the root, the path is the parent's path, "/" and the node's name |
| PathTree.NodePathRoundTrip | agora/src/utils/pathtree.rs:135-141 | with slash-free names, splitting the path gives back the root name and the segments |
| PathTree.RemoveImmediateChild | agora/src/utils/pathtree.rs:213-225 | fails exactly when no child has the name (with the source's message); otherwise removes every child of that name and keeps the rest in order |
| PathTree.RemoveChild | agora/src/utils/pathtree.rs:90-94 | fails for a missing path and for the root; otherwise exactly the paths through the removed node disappear |
| PathTree.BranchingAncestor | agora/src/utils/pathtree.rs:229-244 | the first ancestor that is the root or has more than one child, with its child on the way down; every node in between has one child |
| PathTree.RemoveChildAndBranch | agora/src/utils/pathtree.rs:99-111 | fails for a missing path, for the root and for a non-leaf (each with its message); otherwise exactly the paths through the cut branch disappear |
| PathTree.BranchCutKeepsLeaf | agora/src/utils/pathtree.rs:96-111 | every other leaf survives the cut and is still a leaf |
| PathTree.BranchCutDropsLeaf | agora/src/utils/pathtree.rs:99-111 | the removed leaf itself is no longer in the tree after the cut |
| PathTree.BranchHoldsOneLeaf | agora/src/utils/pathtree.rs:229-244 | the cut branch holds no leaf except the removed one |
| PathTree.LeafPrefix | agora/src/utils/pathtree.rs:147-149 | no path passes through a leaf |
| PathTree.TwoChildrenAt | agora/src/utils/pathtree.rs:239-241 | where two paths part ways, the node has more than one child |
| PathTreeRepr.ReprEnds | agora/src/utils/pathtree.rs:254-258 | `to_repr` gives a quoted name for a leaf and a braced text for an inner node |
| PathTreeRepr.ChildReprsAt | agora/src/utils/pathtree.rs:247-252 | entry `k` of the children's representations is the representation of child `k`, in order |
| PathTreeRepr.ReprTrimmed | agora/src/utils/pathtree.rs:262 | a representation has no whitespace at either end, so the `trim` in `from_repr` keeps it |
| PathTreeRepr.SplitReprArray | agora/src/utils/pathtree.rs:314-361 | no piece is longer than the input, which bounds the recursion of `from_repr` |
| PathTreeRepr.SplitReprArrayLoop | agora/src/utils/pathtree.rs:314-361 | the character loop (escape, quote, depth, top-level comma, final blank piece dropped) computes `SplitReprArray` |
| PathTreeRepr.ScanRepr | agora/src/utils/pathtree.rs:328-353 | a safe tree's representation is collected whole: no comma inside it splits, and depth and quote state come back to what they were |
| PathTreeRepr.ScanChildReprs | agora/src/utils/pathtree.rs:328-353 | the joined children, read inside an open bracket, are collected whole |
| PathTreeRepr.StepNestedComma | agora/src/utils/pathtree.rs:345-352 | a comma below depth 0 is only collected |
| PathTreeRepr.StepComma | agora/src/utils/pathtree.rs:345-349 | a comma at depth 0 outside quotes closes the current piece |
| PathTreeRepr.ScanChildrenTop | agora/src/utils/pathtree.rs:321-354 | at depth 0, the joined representations split at exactly the joining commas |
| PathTreeRepr.SplitJoinedReprs | agora/src/utils/pathtree.rs:314-361 | splitting the joined children's representations gives back exactly those representations |
| PathTreeRepr.SplitLastPiece | agora/src/utils/pathtree.rs:356-358 | a non-blank last piece is kept after the others |
| PathTreeRepr.ParseChildren | agora/src/utils/pathtree.rs:299-302 | the children are parsed in order and the first error stops the loop; on success there is one child per piece |
| PathTreeRepr.ColonAfterName | agora/src/utils/pathtree.rs:279 | the first ':' after a quoted safe name is the one right behind it |
| PathTreeRepr.FromReprQuoted | agora/src/utils/pathtree.rs:265-268 | a quoted safe name is read as a leaf of that name |
| PathTreeRepr.LeafRoundTrip | agora/src/utils/pathtree.rs:246-268 | a safe leaf reads back as itself |
| PathTreeRepr.FromReprUntrimmed | agora/src/utils/pathtree.rs:262 | a text with no surrounding whitespace is parsed as it stands |
| PathTreeRepr.ParseTrimmedBraced | agora/src/utils/pathtree.rs:271-276 | a braced text is parsed by what lies between its braces |
| PathTreeRepr.ParseInnerQuoted | agora/src/utils/pathtree.rs:279-285 | the inner text is split at the colon behind the quoted name |
| PathTreeRepr.ParseNamedQuoted | agora/src/utils/pathtree.rs:280-287 | the quoted name part yields the name and the rest is taken as the children part |
| PathTreeRepr.ParseBracketedList | agora/src/utils/pathtree.rs:288-303 | a bracketed list behind a slash-free name is parsed as the node's children |
| PathTreeRepr.InnerParsesAsBracketed | agora/src/utils/pathtree.rs:276-291 | between the braces, the safe name is read and the bracketed list is kept |
| PathTreeRepr.ReprParsesAsList | agora/src/utils/pathtree.rs:261-305 | an inner node's representation is parsed as the list of its joined children |
| PathTreeRepr.ParseChildrenRoundTrip | agora/src/utils/pathtree.rs:297-303 | the children's representations parse back to the children, in order |
| PathTreeRepr.InnerRoundTrip | agora/src/utils/pathtree.rs:246-310 | an inner safe tree reads back as itself |
| PathTreeRepr.FromReprRoundTrip | agora/src/utils/pathtree.rs:246-310 | `from_repr(to_repr(t))` rebuilds `t`, with the same names and child order, for every tree whose names hold no quote, backslash, bracket, brace, comma, colon, slash or surrounding whitespace |
| LegacyPathTree.NewNode | agora/agora/src/utils/pathtree.rs:92-98 | the first `new` accepts any name and gives a node without children |
| LegacyPathTree.AddChildren | agora/agora/src/utils/pathtree.rs:100-109 | one new leaf per name is appended to the node, in the order given, with no check on the names |
| LegacyPathTree.AddChildrenCount | agora/agora/src/utils/pathtree.rs:100-109 | adding `n` names grows the node's child count by exactly `n` |
| LegacyPathTree.GetChild | agora/agora/src/utils/pathtree.rs:118-136 | succeeds exactly when every non-empty segment finds a child, with the node reached; "" gives the node itself; a failure carries the "not found under" message |
| LegacyPathTree.Parent | agora/agora/src/utils/pathtree.rs:144-149 | an error ("Parent not found for ...") exactly for the root; otherwise the node one segment up |
| LegacyPathTree.RemoveChild | agora/agora/src/utils/pathtree.rs:138-142 | fails for a missing path and for the root; otherwise exactly the paths through the node disappear, so its whole subtree goes |
| LegacyPathTree.RemoveChildCount | agora/agora/src/utils/pathtree.rs:73-88 | when the names under the parent are distinct, the parent loses exactly one child |
| LegacyPathTree.RootIsTop | agora/agora/src/utils/pathtree.rs:151-156 | `root()` from any node reaches the top node, the one whose `parent()` fails |
| LegacyPathTree.NodePathTwo | agora/agora/src/utils/pathtree.rs:166-172 | two levels down, the path is "/" and the root's name followed by both names, each behind a '/' |
| LegacyPathTree.PathOfNested | agora/agora/src/utils/pathtree.rs:166-172 | `main.rs` under `src` under root `project` has the path "/project/src/main.rs" |
| LegacyPathTree.RenderThreeLeaves | agora/agora/src/utils/pathtree.rs:32-55 | a root with three leaves renders as four lines: the closing connector on the root and the last child, the middle connector on the others, indented under the root |
| LegacyPathTree.DisplayThreeLeaves | agora/agora/src/utils/pathtree.rs:182-184 | `Display` prints the same four lines with the final newline trimmed |
| LegacyPathTree.DisplayProjectExample | agora/agora/src/utils/pathtree.rs:32-55 | the tree "project" over "src", "docs" and "tests" prints as the four lines the test expects |
| RegistryPaths.GoodSegmentEnds | agora/src/metaserver/state.rs:192-200 | a segment passes exactly when it is non-empty and neither starts nor ends with whitespace |
| RegistryPaths.FirstBadSegment | agora/src/metaserver/state.rs:190-201 | the first failing segment is reported, as empty (with its position) or as padded; none exactly when all segments pass |
| RegistryPaths.PathFormatFault | agora/src/metaserver/state.rs:170-204 | a path is refused exactly when it is not valid; "" is the empty-path fault, and a leading '/', a trailing '/' or "//" is reported first when present |
| RegistryPaths.ValidPathShape | agora/src/metaserver/state.rs:171-188 | a valid path is non-empty, has no leading or trailing '/' and holds no "//" |
| RegistryPaths.CheckPathFormat | agora/src/metaserver/state.rs:170-204 | the four early checks and the segment loop report the fault `PathFormatFault` specifies |
| RegistryPaths.PrefixStep | agora/src/metaserver/state.rs:218-222 | `current_path` grows by '/' and the next segment, starting from the first segment |
| RegistryPaths.PrefixWhole | agora/src/metaserver/state.rs:209-222 | the prefix of all segments is the path itself |
| RegistryPaths.PrefixSegments | agora/src/metaserver/state.rs:218-222 | the `k`-prefix of a valid path is valid and its segments are the first `k` segments |
| RegistryPaths.ValidSegments | agora/src/metaserver/state.rs:190 | a valid path splits into non-empty segments, which are the steps of its walk through the tree |
| RegistryPaths.PublisherAbove | agora/src/metaserver/state.rs:208-232 | the first proper prefix that is a publisher key; none exactly when no proper prefix is one |
| RegistryPaths.NoPublisherAbove | agora/src/metaserver/state.rs:206-232 | when the scan passes, the path lies below no registered publisher |
| RegistryPaths.CheckParents | agora/src/metaserver/state.rs:208-232 | the loop, which skips the last segment, reports what `PublisherAbove` specifies |
| RegistryPaths.EnsureStepHas | agora/src/metaserver/state.rs:273-291 | one step adds exactly the node of the next prefix when it is missing |
| RegistryPaths.EnsureStepLeaf | agora/src/metaserver/state.rs:273-291 | a step keeps every other leaf a leaf |
| RegistryPaths.EnsureFromHas | agora/src/metaserver/state.rs:261-295 | afterwards the tree holds its old nodes and every prefix of the path, and nothing else |
| RegistryPaths.EnsureFromLeaf | agora/src/metaserver/state.rs:261-295 | leaves that are not a proper prefix of the path stay leaves |
| RegistryPaths.EnsureFromNewLeaf | agora/src/metaserver/state.rs:261-295 | a path that was not in the tree ends up as a leaf |
| RegistryPaths.ParentOfPrefix | agora/src/metaserver/state.rs:276-281 | the text before the last '/' of the `i + 1`-prefix is the `i`-prefix |
| RegistryPaths.EnsurePathExists | agora/src/metaserver/state.rs:261-295 | the loop with its `get_child` checks and its `rfind('/')` parent lookup grows the tree as `Grown` specifies |
| Registry.FormatError | agora/src/metaserver/state.rs:170-204 | the error of `validate_path_format`; none exactly for a valid path |
| Registry.Empty | agora/src/metaserver/state.rs:23-29 | the new registry, a root "agora" with no publishers, is consistent |
| Registry.PublisherAboveMeans | agora/src/metaserver/state.rs:206-232 | the parent check passes exactly when no key's segments are a proper prefix of the path's |
| Registry.PublisherAboveSegments | agora/src/metaserver/state.rs:225-228 | the reported publisher lies above the path |
| Registry.RegisterRefusal | agora/src/metaserver/state.rs:39-62 | the checks run in order (format, duplicate, publisher above, existing directory); none fails exactly when the path can be registered |
| Registry.Register | agora/src/metaserver/state.rs:39-74 | succeeds exactly when the path can be registered; then every prefix becomes a tree node and the record `(name, conn, path)` is stored; a failure changes nothing |
| Registry.Remove | agora/src/metaserver/state.rs:121-138 | a success returns the stored record, drops the path from the map and the confirmed set, and leaves the tree as `remove_child_and_branch` cut it; if the cut fails its error is returned with the record already dropped and the tree and confirmed set unchanged; an invalid or unregistered path fails with its message and changes nothing |
| Registry.Confirm | agora/src/metaserver/state.rs:80-119 | succeeds exactly for a registered, unconfirmed path whose ping client and ping succeed; a failed client or ping removes the registration; the other refusals change nothing |
| Registry.GetInfo | agora/src/metaserver/state.rs:147-168 | the stored record exactly for a valid, registered, confirmed path whose ping answers; "not registered" and "not confirmed" otherwise |
| Registry.Stale | agora/src/metaserver/state.rs:238-249 | the stale paths are exactly the snapshot paths whose ping fails |
| Registry.RegisterKeepsConsistent | agora/src/metaserver/state.rs:55-68 | registering keeps every publisher a valid leaf stored under its own path, with only registered paths confirmed |
| Registry.RemoveSucceeds | agora/src/metaserver/state.rs:121-138 | on a consistent registry, removal fails only for an invalid or unregistered path (the branch cut always succeeds on a leaf) |
| Registry.RemoveKeepsConsistent | agora/src/metaserver/state.rs:121-138 | removing keeps the registry consistent |
| Registry.RemoveThenRegister | agora/src/metaserver/state.rs:121-138 | on a consistent registry a removed path passes every check of `register_publisher` again |
| Registry.NothingAbove | agora/src/metaserver/state.rs:121-127 | in a consistent registry no publisher lies above a registered one, so publishers sit at leaves |
| Registry.CutDropsPath | agora/src/metaserver/state.rs:127-130 | removing a registered path of a consistent registry takes its node out of the tree |
| Registry.ConfirmKeepsConsistent | agora/src/metaserver/state.rs:80-119 | confirming keeps the registry consistent, whatever the pings do |
| Registry.RemoveStep | agora/src/metaserver/state.rs:128-133 | one removal of a registered path drops exactly that path from the map and from the confirmed set |
| Registry.RemoveAllEffect | agora/src/metaserver/state.rs:252-256 | removing distinct registered paths one by one removes exactly them and keeps every other record |
| Registry.PruneEffect | agora/src/metaserver/state.rs:237-259 | pruning removes exactly the confirmed paths whose ping failed and keeps every other registration and confirmation |
| Registry.StaleDistinct | agora/src/metaserver/state.rs:241-249 | the stale list holds each path once |
| Registry.ServerState.constructor | agora/src/metaserver/state.rs:23-29 | the new state is the empty registry |
| Registry.ServerState.RegisterPublisher | agora/src/metaserver/state.rs:39-74 | the new state and the result are those of `Register`, and the object stays valid |
| Registry.ServerState.RemovePublisher | agora/src/metaserver/state.rs:121-138 | the new state and the result are those of `Remove` |
| Registry.ServerState.ConfirmPublisher | agora/src/metaserver/state.rs:80-119 | the new state and the result are those of `Confirm` |
| Registry.ServerState.GetPublisherInfo | agora/src/metaserver/state.rs:147-168 | the result is that of `GetInfo`, and the state is unchanged |
| Registry.ServerState.PruneStalePublishers | agora/src/metaserver/state.rs:237-259 | returns the stale paths and removes each of them |
| Registry.ServerState.CollectStale | agora/src/metaserver/state.rs:241-249 | the first loop collects the snapshot paths whose ping fails, in order |
| Registry.ServerState.RemoveEach | agora/src/metaserver/state.rs:252-256 | the second loop removes each stale path in turn, ignoring errors |
| LegacyRegistry.Empty | agora/agora/src/metaserver/server.rs:25-30 | the new state, a root "agora" with no publishers, is consistent |
| LegacyRegistry.FormatError | agora/agora/src/metaserver/server.rs:163-211 | the same path rules as the later registry, with the legacy texts; none exactly for a valid path |
| LegacyRegistry.Register | agora/agora/src/metaserver/server.rs:39-67 | succeeds exactly for a valid, unregistered path below no publisher; then every prefix becomes a node and the record is stored; a failure changes nothing |
| LegacyRegistry.Update | agora/agora/src/metaserver/server.rs:69-94 | fails without change when the path is not a tree node; otherwise the record is stored, and the call reports an error exactly when none was there before |
| LegacyRegistry.ChildPublishers | agora/agora/src/metaserver/server.rs:111-115 | the registered paths that start with the path and a '/' |
| LegacyRegistry.Remove | agora/agora/src/metaserver/server.rs:96-136 | succeeds exactly for a valid registered path with no publisher below it; then the record is dropped; a failure changes nothing |
| LegacyRegistry.Info | agora/agora/src/metaserver/server.rs:143-153 | the stored record exactly for a valid registered path, "Publisher not registered at ..." otherwise |
| LegacyRegistry.RegisterKeepsConsistent | agora/agora/src/metaserver/server.rs:39-67 | registering keeps every registered path a valid path with a tree node |
| LegacyRegistry.UpdateKeepsConsistent | agora/agora/src/metaserver/server.rs:69-94 | updating keeps the state consistent, since it stores only at existing nodes |
| LegacyRegistry.RemoveKeepsConsistent | agora/agora/src/metaserver/server.rs:96-136 | removing keeps the state consistent, since no publisher lies below the removed subtree |
| LegacyRegistry.SegmentsBelow | agora/agora/src/metaserver/server.rs:114 | a path whose segments extend another's starts with that path and a '/' |
| LegacyRegistry.RemoveCutsSubtree | agora/agora/src/metaserver/server.rs:124-133 | on a consistent state the tree removal cannot fail, so a removal cuts exactly the subtree of the path |
| LegacyRegistry.DirectoryAccepted | agora/agora/src/metaserver/server.rs:58-65 | unlike the later registry, a publisher can be registered at an existing directory: after "a/b", "a" is accepted |
| LegacyRegistry.LegacyServerState.constructor | agora/agora/src/metaserver/server.rs:25-30 | the new state is the empty one |
| LegacyRegistry.LegacyServerState.RegisterPublisher | agora/agora/src/metaserver/server.rs:39-67 | the new state and the result are those of `Register` |
| LegacyRegistry.LegacyServerState.UpdatePublisher | agora/agora/src/metaserver/server.rs:69-94 | the new state and the result are those of `Update` |
| LegacyRegistry.LegacyServerState.RemovePublisher | agora/agora/src/metaserver/server.rs:96-136 | the new state and the result are those of `Remove` |
| LegacyRegistry.LegacyServerState.GetPublisherInfo | agora/agora/src/metaserver/server.rs:143-153 | the result is that of `Info`, and the state is unchanged |
| AgoraCommon.AgoraError | agora/src/utils/common.rs:25-27 | "Agora c::m Error: x" ends with the message |
| AgoraCommon.AgoraErrorInjective | agora/src/utils/common.rs:25-27 | within one component and method the message can be read back |
| AgoraCommon.AgoraErrorCause | agora/src/utils/common.rs:39-46 | the message with a cause starts with the plain message and ends with the cause |
| AgoraCommon.HandleToString | agora/src/utils/common.rs:75-82 | the display ends in ":port", and starts with '[' exactly for an IPv6 address |
| AgoraCommon.HandleToStringInjective | agora/src/utils/common.rs:75-82 | distinct well-formed handles display differently |
| AgoraCommon.FirstInvalidChar | agora/src/utils/common.rs:122-130 | the first character that is not alphanumeric, '-', '_' or '/', scanning left to right |
| AgoraCommon.StripAndVerify | agora/src/utils/common.rs:92-133 | succeeds exactly when the input is non-empty and the slash-trimmed text passes the checks; the result is that text, without a leading or trailing '/'; the two empty cases have their messages |
| AgoraCommon.StripAllSlashes | agora/src/utils/common.rs:100-107 | a string made only of '/' is refused as empty after stripping |
| AgoraCommon.StripIdempotent | agora/src/utils/common.rs:100-132 | applied to its own output it returns the same result |
| Gateway.Handshake | agora/src/gateway.rs:75-97 | a request is accepted exactly when its path starts with "/rawstream/" or "/ping/"; the service is named by the prefix (rawstream checked first) and the agora path is what follows it |
| Gateway.Target | agora/src/gateway.rs:70-106 | a request is piped exactly when the handshake accepts it with a non-empty agora path, to "/tmp/agora/{path}/{service}.sock"; an empty path fails with "Failed to extract path from request" |
| Gateway.Refuse | agora/src/gateway.rs:89-103 | a request is refused exactly when it is not piped; a path with neither prefix gets status 400 with body "Invalid path: {path}" |
| Gateway.PingIsNotRawStream | agora/src/gateway.rs:79-86 | a "/ping/" request never takes the rawstream branch |
| Gateway.SubscriberBytesReachPublisher | agora/src/core/publisher.rs:55-58 | a subscriber's request for "{p}/bytes" is piped to the very socket the publisher of `p` bound for its byte stream (subscriber.rs:50) |
| Gateway.SubscriberStringReachPublisher | agora/src/core/publisher.rs:55-58 | the type-erased subscriber's "{p}/string" request reaches the publisher's string socket (subscriber.rs:169) |
| Gateway.PingReachesServer | agora/src/ping/server.rs:40 | a ping request for a non-empty path reaches the socket the ping server of that path bound |
| Gateway.EmptyPingRefused | agora/src/gateway.rs:101-103 | "/ping/" with nothing after it is refused with the missing-path error |
| Gateway.SocketPathInjective | agora/src/gateway.rs:106 | two different agora paths of one service never share a socket |
| Agorable.Show | agora/src/core.rs:17-24 | an absent value displays as "None", a present one as its own display |
| Agorable.OptionRoundTrip | agora/src/core.rs:29-39 | wrapping an `Option` and unwrapping it gives it back |
| Agorable.AgorableRoundTrip | agora/src/core.rs:29-39 | unwrapping an `AgorableOption` and wrapping it again gives it back |
| Agorable.ShowSome | agora/src/core.rs:17-24 | a wrapped value displays exactly as the value itself |
| LinkLocalAddresses.LinkLocal | agora/agora/src/utils/addresses.rs:34 | the proposed address has first segment fe80 and last segment the index |
| LinkLocalAddresses.Propose | agora/agora/src/utils/addresses.rs:24-38 | a proposal succeeds exactly while the next index is at most 65535 and then advances the index by one |
| LinkLocalAddresses.Release | agora/agora/src/utils/addresses.rs:92-95 | release reports whether the address was allocated, and it is not allocated afterwards; the index is untouched |
| LinkLocalAddresses.LinkLocalInjective | agora/agora/src/utils/addresses.rs:34 | different indices give different addresses |
| LinkLocalAddresses.FreshValid | agora/agora/src/utils/addresses.rs:16-22 | a new manager starts at index 1 with nothing allocated, and satisfies the manager invariant |
| LinkLocalAddresses.NotYetIssued | agora/agora/src/utils/addresses.rs:34-36 | the address at the current index was never proposed before |
| LinkLocalAddresses.IssuedGrows | agora/agora/src/utils/addresses.rs:34-36 | each proposal adds exactly the address of the current index to those issued |
| LinkLocalAddresses.AllocateEffect | agora/agora/src/utils/addresses.rs:54-80 | allocation succeeds exactly while indices remain, returns fe80::1000:index, which was free and verifies, records exactly it and keeps the invariant; exhaustion leaves the manager unchanged and reports "Exhausted address space! Used n/65535 addresses" |
| LinkLocalAddresses.NeverReissued | agora/agora/src/utils/addresses.rs:54-80 | an address proposed once, even if released since, is never handed out again |
| LinkLocalAddresses.AllocateTimesEffect | agora/agora/src/utils/addresses.rs:54-80 | the i-th of up to 65535 allocations from a new manager returns fe80::1000:i, so all are distinct, and the manager then holds exactly those |
| LinkLocalAddresses.ExhaustedAfterAll | agora/agora/src/utils/addresses.rs:19-31 | after 65535 allocations the next one fails with the exhaustion message |
| LinkLocalAddresses.ReleaseTwice | agora/agora/src/utils/addresses.rs:92-95 | the first release of an allocated address reports true, a second reports false |
| LinkLocalAddresses.InfoReportsCount | agora/agora/src/utils/addresses.rs:83-90 | the allocation report contains "{allocated}/65535 addresses allocated" |
| LinkLocalAddresses.LinkLocalZeroRun | agora/agora/src/utils/addresses.rs:34 | the longest run of zero segments of fe80:0:0:0:0:0:1000:k is segments 1 to 5, which the display compresses |
| LinkLocalAddresses.ShowLinkLocal | agora/agora/src/utils/addresses.rs:33-34 | the address of index k displays as "fe80::1000:" followed by k in lower-case hexadecimal |
| LinkLocalAddresses.PublisherAddressManager.constructor | agora/agora/src/utils/addresses.rs:16-22 | the new manager is at index 1 with no allocations |
| LinkLocalAddresses.PublisherAddressManager.ProposeNewAddress | agora/agora/src/utils/addresses.rs:24-38 | the method returns and stores what `Propose` computes, and changes nothing on exhaustion |
| LinkLocalAddresses.PublisherAddressManager.AllocatePublisherAddress | agora/agora/src/utils/addresses.rs:54-80 | the loop of up to ten proposals returns and stores exactly what `Allocate` computes |
| LinkLocalAddresses.PublisherAddressManager.AllocationInfo | agora/agora/src/utils/addresses.rs:83-90 | the report is the one `Info` describes |
| LinkLocalAddresses.PublisherAddressManager.ReleaseAddress | agora/agora/src/utils/addresses.rs:92-95 | the method's result and new state are those of `Release` |
| UlaAddresses.SuffixToAddress | agora/src/utils/addresses.rs:26-43 | the address lies in fde5:402f:ab0a:1 with this manager's uid as fifth segment |
| UlaAddresses.AddressToSuffix | agora/src/utils/addresses.rs:45-61 | a suffix is read exactly from addresses with the ULA prefix and this manager's uid |
| UlaAddresses.SuffixRoundTrip | agora/src/utils/addresses.rs:26-61 | every 48-bit suffix is read back from its address |
| UlaAddresses.AddressRoundTrip | agora/src/utils/addresses.rs:26-61 | every address in range is the address of the suffix read from it |
| UlaAddresses.SuffixToAddressInjective | agora/src/utils/addresses.rs:26-43 | two 48-bit suffixes with the same address are equal |
| UlaAddresses.FirstFree | agora/src/utils/addresses.rs:86-93 | the scan stops at the first attempt whose masked draw is not yet allocated, having skipped only taken ones, or after 1000 attempts |
| UlaAddresses.NewAddressFromEffect | agora/src/utils/addresses.rs:81-104 | the first free masked draw is recorded and its address returned; when all collide the result is "Failed to allocate address after 1000 attempts" and nothing changes |
| UlaAddresses.NewAddressFresh | agora/src/utils/addresses.rs:81-104 | a successful allocation returns an address that verifies, whose suffix was free and is now the only one added |
| UlaAddresses.NewAddressExhausted | agora/src/utils/addresses.rs:85-103 | when every draw collides, allocation fails and the set is unchanged |
| UlaAddresses.Free | agora/src/utils/addresses.rs:112-122 | freeing succeeds exactly for an in-range address whose suffix is allocated, and removes that suffix; every failure leaves the set unchanged |
| UlaAddresses.FreeAfterNew | agora/src/utils/addresses.rs:81-122 | freeing the address just allocated succeeds and restores the earlier set |
| UlaAddresses.FreeTwice | agora/src/utils/addresses.rs:114-117 | a second free of the same address fails with "Address {addr} was not allocated by this manager" |
| UlaAddresses.FreeForeignUid | agora/src/utils/addresses.rs:119-121 | an address carrying another manager's uid is never freed |
| UlaAddresses.PublisherAddressManager.constructor | agora/src/utils/addresses.rs:19-24 | the manager keeps the uid and starts with no allocations |
| UlaAddresses.PublisherAddressManager.AllocatePublisherAddress | agora/src/utils/addresses.rs:81-109 | the loop over the draws returns and stores exactly what `NewAddress` computes |
| UlaAddresses.PublisherAddressManager.FreeAddress | agora/src/utils/addresses.rs:112-122 | the result and new set are those of `Free` |
| UlaAddresses.PublisherAddressManager.AllocationInfo | agora/src/utils/addresses.rs:125-131 | the report is the one `Info` describes |
| ArgusTypes.SymbolFromStr | argus/src/types.rs:8-16 | a symbol is refused exactly when the text is empty, with "TradingSymbol cannot be empty"; otherwise it holds the text unchanged |
| ArgusTypes.PriceFromF64 | argus/src/types.rs:23-28 | a price is accepted exactly when the float is finite and not negative, and keeps the value |
| ArgusTypes.PriceFromString | argus/src/types.rs:32-40 | text that does not parse is an error; parsed text is judged as `from_f64` judges the float |
| ArgusTypes.SizeFromF64 | argus/src/types.rs:47-52 | a size is accepted exactly when the float is finite and strictly positive, and keeps the value |
| ArgusTypes.SizeFromString | argus/src/types.rs:56-64 | text that does not parse is an error; parsed text is judged as `from_f64` judges the float |
| ArgusTypes.SizeIsPrice | argus/src/types.rs:23-52 | every valid size is a valid price; zero is a price and not a size |
| ArgusTypes.NonFiniteRejected | argus/src/types.rs:24-48 | NaN and both infinities are refused as price and as size |
| BiMaps.Empty | argus/src/crypto/hyperliquid/universe.rs:273 | the empty map is a bijection with no pairs |
| BiMaps.GetInverse | argus/src/crypto/hyperliquid/universe.rs:473-494 | on a bijection, looking up a left gives a right exactly when looking up that right gives the left |
| BiMaps.FallbackRoundTrip | argus/src/crypto/hyperliquid/publisher.rs:75-87 | translating a mapped symbol with the unchanged-if-unmapped fallback and back again gives it back, in both directions (trades.rs:90-93) |
| BiMaps.InsertEffect | argus/src/crypto/hyperliquid/universe.rs:186 | after an insert the map is still a bijection with the two paired; any other left keeps its partner unless that partner was the inserted right, in which case it is gone |
| BiMaps.RetainEffect | argus/src/crypto/hyperliquid/universe.rs:355-357 | retain keeps exactly the pairs whose left passes the test, unchanged, and the map stays a bijection |
| BiMaps.InsertAllEffect | argus/src/crypto/hyperliquid/universe.rs:359-361 | inserting an injective list of pairs leaves each listed pair present; an unlisted left survives, unchanged, exactly when its partner is not a listed right |
| HyperliquidUniverse.Sanitize | argus/src/crypto/hyperliquid/universe.rs:159-163 | the result is no longer than the input and holds only alphanumerics, '-' and '_' |
| HyperliquidUniverse.SanitizeAppend | argus/src/crypto/hyperliquid/universe.rs:159-163 | sanitising is a filter: it distributes over concatenation |
| HyperliquidUniverse.SanitizeKeepsClean | argus/src/crypto/hyperliquid/universe.rs:159-163 | a string of kept characters is left as it is |
| HyperliquidUniverse.SanitizeIdempotent | argus/src/crypto/hyperliquid/universe.rs:159-163 | sanitising twice is sanitising once |
| HyperliquidUniverse.ActiveStep | argus/src/crypto/hyperliquid/universe.rs:174-175 | a delisted asset is skipped and a listed one is kept, in order |
| HyperliquidUniverse.PerpFromSucceeds | argus/src/crypto/hyperliquid/universe.rs:169-193 | perpetual extraction fails exactly when some listed asset has an empty name, with "TradingSymbol cannot be empty" |
| HyperliquidUniverse.PerpFromValue | argus/src/crypto/hyperliquid/universe.rs:174-192 | on success the symbols are "{sanitised name}_PERP" for each listed asset, in universe order |
| HyperliquidUniverse.PerpFromMap | argus/src/crypto/hyperliquid/universe.rs:174-192 | on success the map has had (normalised, exchange name) inserted for each listed asset, in the same order |
| HyperliquidUniverse.ExtractPerpEffect | argus/src/crypto/hyperliquid/universe.rs:169-193 | `extract_active_perp_symbols` succeeds exactly when every listed asset is named, returning the normalised symbols and inserting the pairs |
| HyperliquidUniverse.PerpSymbolsMarked | argus/src/crypto/hyperliquid/universe.rs:180-182 | a perpetual symbol ends in "_PERP", so the symbol check never refuses it |
| HyperliquidUniverse.TokenNames | argus/src/crypto/hyperliquid/universe.rs:205-208 | the token table knows exactly the indices listed in the metadata |
| HyperliquidUniverse.SpotPair | argus/src/crypto/hyperliquid/universe.rs:213-235 | a spot pair succeeds exactly when both token indices are known and the exchange name is non-empty, giving "{token0}-{token1}" sanitised; an unknown first token is reported as "Token index i not found in metadata" |
| HyperliquidUniverse.SpotFromEffect | argus/src/crypto/hyperliquid/universe.rs:200-244 | spot extraction succeeds exactly when every pair does, with one normalised symbol per pair in universe order |
| HyperliquidUniverse.SpotSymbolShape | argus/src/crypto/hyperliquid/universe.rs:228-234 | a spot symbol always holds its '-', so the symbol check never refuses it |
| HyperliquidUniverse.RefreshPerpEffect | argus/src/crypto/hyperliquid/universe.rs:353-361 | after a perpetual refresh every fetched pair is present, and an old entry not re-inserted survives exactly when it is a spot entry whose exchange name no fetched pair takes |
| HyperliquidUniverse.RefreshSpotEffect | argus/src/crypto/hyperliquid/universe.rs:406-414 | the spot refresh keeps only old perpetual entries whose exchange name no fetched pair takes, and adds every fetched pair |
| HyperliquidUniverse.UniverseManager.constructor | argus/src/crypto/hyperliquid/universe.rs:269-330 | a successful initial extraction replaces its universe; the map keeps whatever the extractions inserted, even a failing one; a failed fetch leaves things empty |
| HyperliquidUniverse.UniverseManager.RefreshPerp | argus/src/crypto/hyperliquid/universe.rs:340-381 | a failed extraction changes nothing; a successful one replaces the perpetual universe and refreshes the map; the spot universe is untouched |
| HyperliquidUniverse.UniverseManager.RefreshSpot | argus/src/crypto/hyperliquid/universe.rs:393-434 | the same for the spot universe, leaving the perpetual one untouched |
| HyperliquidUniverse.TranslationsInverse | argus/src/crypto/hyperliquid/universe.rs:473-494 | the two translations undo each other |
| HyperliquidPublisher.PrefixesDistinct | argus/src/crypto/hyperliquid/publisher.rs:62-68 | spot and perpetual staging prefixes never coincide, and each version has its own |
| HyperliquidPublisher.SpotPrefixIffSpot | argus/src/crypto/hyperliquid/publisher.rs:163-167 | the spot prefix is chosen exactly for the market type "spot" |
| HyperliquidPublisher.ToHyperliquid | argus/src/crypto/hyperliquid/publisher.rs:75-87 | each symbol is translated on its own, in order, and an unmapped one is left unchanged |
| HyperliquidPublisher.ToHyperliquidRoundTrip | argus/src/crypto/hyperliquid/publisher.rs:75-87 | the workers' reverse translation (trades.rs:90-93) recovers every mapped symbol |
| HyperliquidPublisher.Missing | argus/src/crypto/hyperliquid/publisher.rs:243-253 | the filter keeps exactly the elements not in the other set |
| HyperliquidPublisher.MissingAppend | argus/src/crypto/hyperliquid/publisher.rs:243-253 | the filter keeps order: it distributes over concatenation |
| HyperliquidPublisher.MissingDisjoint | argus/src/crypto/hyperliquid/publisher.rs:243-253 | a list meeting nothing in the set passes through whole |
| HyperliquidPublisher.MissingNone | argus/src/crypto/hyperliquid/publisher.rs:243-253 | a list inside the set is filtered away entirely |
| HyperliquidPublisher.DifferenceSelf | argus/src/crypto/hyperliquid/publisher.rs:236-256 | comparing a universe with itself finds nothing added and nothing removed |
| HyperliquidPublisher.ChangedIffMembersDiffer | argus/src/crypto/hyperliquid/publisher.rs:450-459 | the universe counts as changed exactly when its set of symbols differs |
| HyperliquidPublisher.Supervisor.constructor | argus/src/crypto/hyperliquid/publisher.rs:406 | the supervisor starts at version 0 with the initial universes |
| HyperliquidPublisher.Supervisor.Check | argus/src/crypto/hyperliquid/publisher.rs:447-493 | a poll bumps the version by one and adopts the new universes exactly when either set of symbols changed, and otherwise changes nothing |
| HyperliquidPublisher.SameUniverseNoBump | argus/src/crypto/hyperliquid/publisher.rs:450-461 | polling the same universes again never bumps the version |
| HyperliquidPublisher.DestPathInjective | argus/src/crypto/hyperliquid/publisher.rs:120-126 | different symbols get different consumer paths |
| HyperliquidPublisher.WellFormedUpdate | argus/src/crypto/hyperliquid/publisher.rs:120-135 | adding a relay keyed by its own symbol and consumer path keeps the relay set well formed |
| HyperliquidPublisher.BatchesCover | argus/src/crypto/hyperliquid/publisher.rs:118-139 | the batches of ten cover the symbols and only the last can be partial; there are none exactly for no symbols |
| HyperliquidPublisher.FirstRefusal | argus/src/crypto/hyperliquid/publisher.rs:127-135 | there is no refusal exactly when every relay creation succeeds |
| HyperliquidPublisher.Accepted | argus/src/crypto/hyperliquid/publisher.rs:127-135 | the symbols handled before the first refusal form a prefix that all succeed; it is the whole list when nothing is refused, and otherwise stops at the refused symbol whose error is returned |
| HyperliquidPublisher.AcceptedAt | argus/src/crypto/hyperliquid/publisher.rs:127-135 | a refusal that follows only successes ends the accepted prefix exactly there |
| HyperliquidPublisher.BumpComposes | argus/src/crypto/hyperliquid/publisher.rs:159-210 | creating the added relays, swapping the universe's relays and dropping the removed ones yields the bumped relay set |
| HyperliquidPublisher.BumpedShape | argus/src/crypto/hyperliquid/publisher.rs:159-210 | after a bump the relays are keyed by exactly the new universe's symbols, each still sending to its own consumer path and now reading from the new staging prefix |
| HyperliquidPublisher.BumpedKeepsDest | argus/src/crypto/hyperliquid/publisher.rs:189-202 | a relay of a symbol that stays keeps its name and destination; only its source moves |
| HyperliquidPublisher.BumpedIdempotent | argus/src/crypto/hyperliquid/publisher.rs:159-210 | bumping twice to the same universe and version is bumping once |
| HyperliquidPublisher.TypedRelaySet.constructor | argus/src/crypto/hyperliquid/publisher.rs:144-151 | the set keeps its market type, prefix and payload and starts with no relays |
| HyperliquidPublisher.TypedRelaySet.New | argus/src/crypto/hyperliquid/publisher.rs:109-152 | creation fails exactly at the first refused relay, with its error; otherwise there is one unsourced relay per symbol and one pause between consecutive batches of ten |
| HyperliquidPublisher.TypedRelaySet.AddRelays | argus/src/crypto/hyperliquid/publisher.rs:118-136 | relays are added in order until the first refusal, which is returned; the relays afterwards are the old ones plus new relays for exactly the symbols accepted before it (all of them when none is refused) |
| HyperliquidPublisher.TypedRelaySet.Keys | argus/src/crypto/hyperliquid/publisher.rs:160 | the collected keys are exactly the relay map's keys |
| HyperliquidPublisher.TypedRelaySet.Bump | argus/src/crypto/hyperliquid/publisher.rs:159-210 | the outcome is the first refusal of the create and swap steps; on success the relays are the bumped set; a refused creation leaves the old relays plus those created before it; a refused swap leaves every added relay and the swaps made before it |
| HyperliquidPublisher.TypedRelaySet.SwapOn | argus/src/crypto/hyperliquid/publisher.rs:189-202 | each relay of the universe is pointed at its staging path, in order, until the first refusal; the relays afterwards are swapped for exactly the symbols accepted before it |
| HyperliquidPublisher.TypedRelaySet.Drop | argus/src/crypto/hyperliquid/publisher.rs:204-207 | exactly the relays of the removed symbols are dropped |
| HyperliquidWebstream.Normalized | argus/src/crypto/hyperliquid/webstream.rs:49-61 | each exchange symbol is translated by reverse lookup, in order, and kept as it is when unmapped |
| HyperliquidWebstream.AgoraPaths | argus/src/crypto/hyperliquid/webstream.rs:64-74 | one path "{prefix}/{payload}/{normalised}" per symbol, in order |
| HyperliquidWebstream.Names | argus/src/crypto/hyperliquid/webstream.rs:92-96 | the dispatch keys are the normalised symbols' names, in order |
| HyperliquidWebstream.IndexMap | argus/src/crypto/hyperliquid/webstream.rs:92-96 | the table holds exactly the normalised names, each pointing at its last position in the list |
| HyperliquidWebstream.WorkerShape | argus/src/crypto/hyperliquid/webstream.rs:27-96 | a worker starts exactly for 1 to 1024 symbols whose publishers all register; it then has one normalised symbol, path and publisher per symbol, in order, and the dispatch table over them |
| HyperliquidWebstream.NormalizeAll | argus/src/crypto/hyperliquid/webstream.rs:49-61 | the normalising loop computes `Normalized` |
| HyperliquidWebstream.NewWorker | argus/src/crypto/hyperliquid/webstream.rs:27-96 | the constructor's loops build exactly the worker `WorkerOf` describes |
| HyperliquidWebstream.DispatchPublishes | argus/src/crypto/hyperliquid/webstream.rs:191-260 | a frame is published exactly when it is on the subscribed channel (neither confirmation nor pong), carries a string coin that parses, and its normalised coin has a publisher; the value published is the parsed one, at that publisher |
| HyperliquidWebstream.DispatchReachesOwnPublisher | argus/src/crypto/hyperliquid/webstream.rs:222-246 | a published frame goes to the publisher whose normalised symbol is the frame's normalised coin |
| HyperliquidWebstream.SubscribedCoinIsRouted | argus/src/crypto/hyperliquid/webstream.rs:217-246 | a parsable frame for one of the worker's own subscribed coins is always published |
| HyperliquidWebstream.WorkerFeedsRelay | argus/src/crypto/hyperliquid/webstream.rs:64-74 | for a universe the publisher translated to exchange names (publisher.rs:75-87), the worker publishes each symbol on exactly the staging path the relays read from (publisher.rs:192-197) |
| HyperliquidTrades.TradeOf | argus/src/crypto/hyperliquid/trades.rs:98-122 | a raw trade converts exactly when its price and size parse, the price is a price, the size a size and the time a date; the trade carries those values, the message's symbol and receive time, and is a buy exactly for side "B" |
| HyperliquidTrades.OfChannelData | argus/src/crypto/hyperliquid/trades.rs:69-128 | the conversion as written, with its loop, computes `TradesOf` |
| HyperliquidTrades.TradesShape | argus/src/crypto/hyperliquid/trades.rs:69-128 | a message converts exactly when it decodes to a non-empty array whose first coin is non-empty and every trade converts; then one trade per raw trade, in order, all on the first coin's normalised symbol |
| HyperliquidTrades.TradesErrors | argus/src/crypto/hyperliquid/trades.rs:76-85 | a non-array and an empty array fail, each with its own message |
| HyperliquidTrades.BadTradeFailsBatch | argus/src/crypto/hyperliquid/trades.rs:98-125 | one bad trade fails the whole batch with the first bad trade's error |
| HyperliquidOrderbook.LevelOf | argus/src/crypto/hyperliquid/orderbook.rs:92-96 | a level converts exactly when its price is a price and its size a size; the order count is kept as it is |
| HyperliquidOrderbook.OfChannelData | argus/src/crypto/hyperliquid/orderbook.rs:71-116 | the conversion as written, with its two level loops, computes `SnapshotOf` |
| HyperliquidOrderbook.SnapshotShape | argus/src/crypto/hyperliquid/orderbook.rs:71-116 | a snapshot converts exactly when the coin is non-empty, every level is valid and the time is a date; it is then the only element, on the normalised symbol, with every bid and ask level in order |
| HyperliquidOrderbook.TotalIsLength | argus/src/crypto/hyperliquid/orderbook.rs:217-226 | the running level count is the length of the flattened levels |
| HyperliquidOrderbook.OffsetsCount | argus/src/crypto/hyperliquid/orderbook.rs:217-226 | there is one offset more than there are records, and offset i counts the levels of the first i records |
| HyperliquidOrderbook.ConcatPrefix | argus/src/crypto/hyperliquid/orderbook.rs:219-226 | the levels of the first i records are a prefix of the flattened column |
| HyperliquidOrderbook.OffsetsDelimit | argus/src/crypto/hyperliquid/orderbook.rs:217-254 | each record's levels are exactly the flattened slice between its two offsets, which start at 0 and end at the column length |
| HyperliquidOrderbook.FlattenLevels | argus/src/crypto/hyperliquid/orderbook.rs:217-226 | the nested loops build the price, size and order columns of the flattened levels and the offsets of the list array |
| HyperliquidBbo.BboShape | argus/src/crypto/hyperliquid/bbo.rs:75-104 | a quote converts exactly when both levels are present and valid, the coin argument is non-empty and the time is a date; it then carries the coin argument as symbol and both levels' values |
| HyperliquidBbo.MissingSideFirst | argus/src/crypto/hyperliquid/bbo.rs:85-90 | a missing side is reported before anything else, the bid before the ask |
| HyperliquidBbo.PayloadCoinIgnored | argus/src/crypto/hyperliquid/bbo.rs:92-93 | the coin inside the payload plays no part: the symbol comes from the argument |
| HyperliquidContexts.OptionalPrice | argus/src/crypto/hyperliquid/perp_context.rs:110-114 | an absent price is accepted as absent; a present one is accepted exactly when it is a price, and kept |
| HyperliquidContexts.OptionalNumber | argus/src/crypto/hyperliquid/perp_context.rs:124-143 | an optional number is accepted exactly when absent or parsable, and keeps the parsed value |
| HyperliquidContexts.PerpShape | argus/src/crypto/hyperliquid/perp_context.rs:90-164 | a perpetual context converts exactly when the coin is non-empty, the mark price and any mid or oracle price are prices, the funding rate parses and any open interest and volume parse; it is then the only element, on the normalised symbol, with those values |
| HyperliquidContexts.SpotShape | argus/src/crypto/hyperliquid/spot_context.rs:86-157 | a spot context converts exactly when the coin is non-empty, the mark price and any mid price are prices and any volume and supplies parse; it is then the only element, on the normalised symbol, with those values |
| Converters.Collect | argus/src/crypto/hyperliquid/trades.rs:98-127 | converting a list succeeds exactly when every element converts, giving their images in order; otherwise the first failing element's error |
| Converters.CollectFailsAt | argus/src/crypto/hyperliquid/trades.rs:98-127 | a failure after successes only is the failure of the whole list |
| Converters.CollectLoop | argus/src/crypto/hyperliquid/orderbook.rs:92-96 | the loop that stops at the first error computes `Collect` |
| Converters.PickExactly | argus/src/recording/archiver.rs:151-177 | the pass keeps exactly the accepted elements' images and never more than there are elements |
| Converters.PickLoop | argus/src/recording/archiver.rs:151-177 | the element-by-element loop computes `Pick` |
| Converters.PositionMap | argus/src/crypto/binance/publisher.rs:71-76 | the dispatch table holds exactly the listed keys, each at its last position in the list |
| Converters.Entries | argus/src/crypto/binance/publisher.rs:57-69 | one publisher entry per name, on the path at the same position |
| Converters.RegisterAllShape | argus/src/crypto/binance/publisher.rs:57-69 | creating the publishers in order succeeds exactly when every path registers, giving one entry per name and path |
| Converters.NormalizedSymbol | argus/src/crypto/hyperliquid/trades.rs:89-93 | a coin gives a symbol exactly when it is non-empty: its reverse lookup, or itself when unmapped |
| Converters.NormalizedSymbolRoundTrip | argus/src/crypto/hyperliquid/trades.rs:89-93 | a coin the table knows normalises to a symbol that maps forward to the coin again |
| UtcTime.AsI64 | argus/src/crypto/hyperliquid/trades.rs:119 | the cast stays within i64, agrees with the input modulo 2^64, and is the identity exactly below 2^63 |
| UtcTime.FromTimestampMillis | argus/src/crypto/hyperliquid/trades.rs:119-120 | a millisecond count gives a date exactly inside chrono's range, and the date gives the count back |
| UtcTime.U64Dates | argus/src/crypto/hyperliquid/orderbook.rs:109 | which u64 fields give a date: every count up to chrono's last millisecond, none up to 2^63, and through the wrap-around only counts near 2^64, as negative dates |
| UtcTime.IsoDate | argus/src/recording/archiver.rs:346 | the "%Y-%m-%d" rendering never contains a '/', so it is one path segment |
| UtcTime.IsoDateShape | argus/src/recording/archiver.rs:346 | a date of years 0 to 9999 renders as exactly ten characters "YYYY-MM-DD" |
| BinanceRecords.SizeErrorShowsPrice | argus/src/crypto/binance/trades.rs:106-111 | as written, an unparsable quantity is reported with the price text, which differs from the message naming the bad quantity whenever the two texts differ |
| BinanceRecords.SizeErrorOnlyDifference | argus/src/crypto/binance/trades.rs:91-127 | the corrected conversion succeeds exactly when the as-written one does, with the same trade; they differ only in the size error, which now names the quantity |
| BinanceRecords.TradeShape | argus/src/crypto/binance/trades.rs:91-127 | a trade converts exactly when it decodes and its fields convert; it carries the ids unchanged, the maker flag as the bid-quote side, and the event time as both event and trade time |
| BinanceRecords.BboShape | argus/src/crypto/binance/bbo.rs:69-88 | a quote converts exactly when the symbol is non-empty, both prices are prices and both sizes are sizes, and carries those values and the update id |
| BinanceRecords.ParseFloat | argus/src/crypto/binance/orderbook.rs:82-89 | any text that parses is accepted with its value, whatever its sign |
| BinanceRecords.DiffLevelOf | argus/src/crypto/binance/orderbook.rs:105-107 | a diff level converts exactly when its price is a price and its size parses |
| BinanceRecords.DiffOfJsonBytes | argus/src/crypto/binance/orderbook.rs:92-129 | the conversion as written, with its two level loops, computes `DiffOf` |
| BinanceRecords.DiffShape | argus/src/crypto/binance/orderbook.rs:92-129 | a diff converts exactly when every price is valid, every size parses, the symbol is non-empty and the event time is a date; the update ids and every level are kept, in order |
| BinanceRecords.ZeroSizeClearsOnlyInDiffs | argus/src/crypto/binance/orderbook.rs:106-193 | a zero size is a valid diff level (line 106 parses it as a plain float) and an invalid depth level (line 193 requires a positive `TradeSize`) |
| BinanceRecords.DepthLevelOf | argus/src/crypto/binance/orderbook.rs:192-194 | a depth level converts exactly when its price is a price and its size a size |
| BinanceRecords.DepthOfJsonBytes | argus/src/crypto/binance/orderbook.rs:179-213 | the conversion as written, with its two level loops, computes `DepthOf` |
| BinanceRecords.DepthShape | argus/src/crypto/binance/orderbook.rs:179-213 | a snapshot converts exactly when every level is valid and the symbol argument is non-empty; the symbol and request time come from the arguments, and every bid and ask level keeps its parsed price and size, in order |
| BinanceRecords.DisplayRows | argus/src/crypto/binance/orderbook.rs:239-270 | the display prints one row per depth up to the longer side, each holding the bid and ask at that depth or blanks |
| BinanceRecords.RowsShowAllBids | argus/src/crypto/binance/orderbook.rs:243-270 | reading the bid column of the rows back, blanks skipped, gives every bid level in order |
| BinanceWebstream.AgoraPaths | argus/src/crypto/binance/publisher.rs:43-53 | one path "{prefix}/{payload}/{symbol}" per symbol, in order |
| BinanceWebstream.AgoraPathInjective | argus/src/crypto/binance/publisher.rs:43-53 | different symbols get different paths |
| BinanceWebstream.StreamNames | argus/src/crypto/binance/publisher.rs:79-88 | one stream name, the lower-cased symbol followed by the suffix, per symbol |
| BinanceWebstream.StreamUrlRoundTrip | argus/src/crypto/binance/publisher.rs:89-93 | the URL is the endpoint followed by '/', and splitting the rest at '/' gives every stream name back, in order |
| BinanceWebstream.LowerNames | argus/src/crypto/binance/publisher.rs:72-76 | the dispatch keys are the symbols in lower case |
| BinanceWebstream.SymbolNames | argus/src/crypto/binance/publisher.rs:57-59 | each publisher is named after its symbol as given |
| BinanceWebstream.NewWorker | argus/src/crypto/binance/publisher.rs:21-93 | the constructor with its publisher loop builds exactly the worker `WorkerOf` describes |
| BinanceWebstream.WorkerShape | argus/src/crypto/binance/publisher.rs:21-93 | a worker starts exactly for 1 to 1024 symbols whose paths all register; it then has one path and one publisher per symbol, in order, the dispatch table and the stream URL |
| BinanceWebstream.DispatchRoutesBySymbol | argus/src/crypto/binance/publisher.rs:115-147 | a parsed message is published exactly when its lower-cased symbol is one of the worker's, at that symbol's last position; otherwise it is reported as having no publisher |
| BinanceWebstream.CaseInsensitiveRouting | argus/src/crypto/binance/publisher.rs:72-121 | a message whose symbol differs from a worker symbol only in case still reaches that publisher |
| BinanceWebstream.OnlyTextPublishes | argus/src/crypto/binance/publisher.rs:105-157 | only a text frame that parses is published; a ping is answered with a pong carrying its payload; a close or a read error disconnects |
| Archiver.Normal | argus/src/recording/archiver.rs:234-248 | the components `Path` keeps are pieces of the path, none empty and none "." |
| Archiver.NormalAppend | argus/src/recording/archiver.rs:234-248 | keeping components distributes over concatenation |
| Archiver.Components | argus/src/recording/archiver.rs:234-248 | the components of a path are non-empty names without '/' and never "." |
| Archiver.ParseShape | argus/src/recording/archiver.rs:233-290 | a path parses exactly when it has a parent directory name and a file name "{symbol}_{timestamp}.pq" with a non-empty symbol and a 17-character timestamp the clock reads as one local time; it then gives the directory as data type, the symbol and that time |
| Archiver.ComponentsBelow | argus/src/recording/archiver.rs:237-248 | a name and a file below a directory add exactly those two components |
| Archiver.TmpFileName | argus/src/scribe/tempfile.rs:53-54 | the scribe's file name "{symbol}_{timestamp}.pq" is well formed and splits back into the symbol and the timestamp |
| Archiver.TmpNameRoundTrip | argus/src/recording/archiver.rs:233-290 | every file the scribe writes under "{dir}/{data_type}/" parses back to that data type, symbol and time (tempfile.rs:53-54) |
| Archiver.TargetPathComponents | argus/src/recording/archiver.rs:348-359 | below the target directory the path has exactly four components, the data type, "date=...", "symbol=..." and "data.parquet", so different keys never share a file |
| Archiver.TargetPathJoin | argus/src/recording/archiver.rs:348-359 | the target path is the target directory, then its four components joined by '/' |
| Archiver.FlushPlanOf | argus/src/recording/archiver.rs:341-377 | a file is planned exactly when its path parses, to the hive path of its data type, "%Y-%m-%d" date and symbol; it is merged through "{dest}.tmp" exactly when the target exists, and moved otherwise |
| Archiver.FlushOutcome | argus/src/recording/archiver.rs:326-377 | a path that does not parse fails with the parse error; otherwise the outcome is the disk's for the planned move |
| Archiver.ScanExactly | argus/src/recording/archiver.rs:151-177 | a file is kept exactly when it is listed and parses to this data type, with its parsed symbol and instant |
| Archiver.ScanFiles | argus/src/recording/archiver.rs:151-177 | the first pass as it runs computes `Scan` |
| Archiver.MergedIsMax | argus/src/recording/archiver.rs:184-198 | after the update each symbol's entry is the maximum of its old entry and its files' times: every old and scanned symbol has one, none decreases, and each is an old entry or a file's time |
| Archiver.MergeUpdates | argus/src/recording/archiver.rs:188-197 | the loop computes `Merged` |
| Archiver.SelectedExactly | argus/src/recording/archiver.rs:208-223 | the flushed files are exactly the ones strictly older than their symbol's latest time |
| Archiver.NewestKept | argus/src/recording/archiver.rs:184-223 | a symbol keeps at least one of its files exactly when it had no entry before or its entry was not newer than all of its files |
| Archiver.TotalsCount | argus/src/recording/archiver.rs:208-223 | a failed flush is skipped and not counted: the file count reaches the number selected exactly when every flush succeeds |
| Archiver.FlushFiles | argus/src/recording/archiver.rs:205-223 | the second pass as it runs computes `Totals` over the selected files |
| Archiver.IsValidSrcDir | argus/src/recording/archiver.rs:293-323 | a source directory is valid exactly when it exists, is a readable directory and has a subdirectory |
| Archiver.StartupShape | argus/src/recording/archiver.rs:39-70 | the archiver starts exactly when the source is valid and the target directory and every data type directory can be created; an invalid source fails with its own error |
| Archiver.EmptyUpdates | argus/src/recording/archiver.rs:73-78 | every data type starts with an empty table, and there are no others |
| Archiver.Archiver.constructor | argus/src/recording/archiver.rs:109-115 | the archiver keeps its directories and data types and starts with empty tables |
| Archiver.Archiver.New | argus/src/recording/archiver.rs:39-116 | construction succeeds exactly when startup does, failing with its error, and then holds empty tables for every data type |
| Archiver.Archiver.SwapOn | argus/src/recording/archiver.rs:505-513 | only a valid directory replaces the source, and the tables are untouched |
| Archiver.Archiver.Track | argus/src/recording/archiver.rs:129-228 | one tick lists the folder, keeps the files of this data type, raises their symbols' latest times and flushes the older files, counting successes; with no files nothing changes |
| Archiver.Archiver.TimeSinceLastUpdate | argus/src/recording/archiver.rs:522-538 | the report has every data type and symbol, each with `now` minus its latest time |
| Archiver.ElapsedSince | argus/src/recording/archiver.rs:530-533 | the inner loop gives each symbol `now` minus its latest time, and no other symbol |
| BinanceLastTrades.NormalizeTimeIsMicros | mnemosyne/src/crypto/binance/last_trades.rs:96-110 | every time Binance writes, milliseconds before the cutoff and microseconds after it, comes out as the same instant in microseconds, so order across the switch is kept |
| BinanceLastTrades.NormalizeTimes | mnemosyne/src/crypto/binance/last_trades.rs:99-108 | the column conversion treats every row alike, keeping the row count |
| BinanceLastTrades.PathJoinBelow | mnemosyne/src/crypto/binance/last_trades.rs:304-321 | joining a relative piece below a directory puts exactly one '/' between them |
| BinanceLastTrades.HivePathPartitions | mnemosyne/src/crypto/binance/last_trades.rs:304-309 | below the hive directory a file sits in the partition of its date and its symbol: the rest splits into "date=...", "symbol=..." and "data.parquet" |
| BinanceLastTrades.HivePathText | mnemosyne/src/crypto/binance/last_trades.rs:304-309 | the hive path is "{hive}/date={date}/symbol={symbol}/data.parquet" |
| BinanceLastTrades.RawPathMirrorsUrl | mnemosyne/src/crypto/binance/last_trades.rs:115-321 | the download URL (lines 115-133) and the raw path (lines 311-321) both end in "{symbol}{peg}/{symbol}{peg}-{suffix}-{date}.zip", so a file is kept under the name it was served with |
| BinanceLastTrades.RawPathText | mnemosyne/src/crypto/binance/last_trades.rs:311-321 | the raw path is "{raw}/{symbol}{peg}/{archive}" |
| BinanceLastTrades.NewBook | mnemosyne/src/crypto/binance/last_trades.rs:252-289 | a peg other than "USDT" or "USDC" is refused first; otherwise the book is made exactly when both directories can be created, with the universe cache in the hive directory and the fixed S3 base URL |
| BinanceLastTrades.FirstDateFrom | mnemosyne/src/crypto/binance/last_trades.rs:38-39 | the search finds the leftmost "dddd-dd-dd" at or after a position, or reports none exactly when there is none |
| BinanceLastTrades.FirstDateIs | mnemosyne/src/crypto/binance/last_trades.rs:382-385 | the first place the date pattern matches is the date reported |
| BinanceLastTrades.DateAfterText | mnemosyne/src/crypto/binance/last_trades.rs:379-387 | a date printed after text without digits is read back |
| BinanceLastTrades.ArchiveKeyDate | mnemosyne/src/crypto/binance/last_trades.rs:371-387 | a day's archive key, under a directory and names without digits, yields the archive's date |
| BinanceLastTrades.PegSymbolsExactly | mnemosyne/src/crypto/binance/last_trades.rs:348-352 | a symbol is kept exactly when it followed by the peg is a listed pair |
| BinanceLastTrades.RowsExactly | mnemosyne/src/crypto/binance/last_trades.rs:420-429 | a (symbol, date) row is there exactly when the date is one of that symbol's dates |
| BinanceLastTrades.FlattenResults | mnemosyne/src/crypto/binance/last_trades.rs:420-429 | the nested loop fills the two columns with the rows, in order |
| BinanceLastTrades.UniverseExactly | mnemosyne/src/crypto/binance/last_trades.rs:342-442 | the universe fails with the listing error when the pairs cannot be listed, and otherwise fails exactly when some listed date is not a calendar day (the strict date conversion); when it succeeds it holds (s, d) exactly when s followed by the peg is a pair and d is the date of one of its non-checksum keys; a symbol whose listing fails contributes nothing |
| BinanceLastTrades.UniverseMembers | mnemosyne/src/crypto/binance/last_trades.rs:342-429 | the flattened rows are exactly the (symbol, date) pairs that the pairs in the peg and their listings give |
| BinanceLastTrades.IsoDateParses | mnemosyne/src/crypto/binance/last_trades.rs:437-440 | a calendar day rendered as "YYYY-MM-DD" passes the strict date conversion and reads back as the same day |
| UtcTime.DaysInMonth | mnemosyne/src/crypto/binance/last_trades.rs:437-440 | months have 28 to 31 days, and 29 exactly for February of a Gregorian leap year |
| BinanceLastTrades.DatesOfKeysExactly | mnemosyne/src/crypto/binance/last_trades.rs:372-387 | the dates of a listing are exactly the dates its kept keys yield |
| BinanceS3.NormalizeS3Prefix | mnemosyne/src/crypto/binance/s3_helpers.rs:23-35 | the result starts with "data/" and ends with '/', extends the input by at most those, and equals the input exactly when it already had both |
| BinanceS3.NormalizeIdempotent | mnemosyne/src/crypto/binance/s3_helpers.rs:23-35 | normalizing twice is normalizing once |
| BinanceS3.NormalizeKeepsData | mnemosyne/src/crypto/binance/s3_helpers.rs:24-28 | "data/" is not put in front twice |
| BinanceS3.AllKeysShape | mnemosyne/src/crypto/binance/s3_helpers.rs:39-62 | the listing fails exactly when a page does, with the first failing page's error; otherwise it holds exactly the keys set on some page |
| BinanceS3.GetAllKeys | mnemosyne/src/crypto/binance/s3_helpers.rs:52-61 | the paginator loop computes `AllKeys` |
| BinanceS3.FirstErrorStops | mnemosyne/src/crypto/binance/s3_helpers.rs:53 | an error after successful pages ends the listing with that error |
| BinanceS3.PairOf | mnemosyne/src/crypto/binance/s3_helpers.rs:82-87 | a common prefix yields a pair p exactly when it is "{fixed}{p}/" with p non-empty |
| BinanceS3.PagePairsExactly | mnemosyne/src/crypto/binance/s3_helpers.rs:81-91 | a page yields exactly the non-empty names p it lists a common prefix "{fixed}{p}/" for |
| BinanceS3.TradePairsSucceed | mnemosyne/src/crypto/binance/s3_helpers.rs:79-94 | reading the pairs fails exactly when a page failed |
| BinanceS3.TradePairsExactly | mnemosyne/src/crypto/binance/s3_helpers.rs:66-95 | with every page read, the pairs are exactly the non-empty names with a common prefix "{fixed}{p}/" on some page, each once |
| BinanceS3.GetAllTradePairs | mnemosyne/src/crypto/binance/s3_helpers.rs:66-95 | the paginator loop inserting into the set computes `TradePairs` on the normalized prefix |
| BinanceS3.PairsErrorStops | mnemosyne/src/crypto/binance/s3_helpers.rs:80 | an error after successful pages ends the pair listing with that error |
| BinanceS3.Continuation | mnemosyne/mnemosyne/crypto/binance/s3_helpers.py:62-76 | another page follows exactly when `IsTruncated` reads "true" in any case and `NextMarker` has text, from that marker; an `IsTruncated` without text raises |
| BinanceS3.PagesChain | mnemosyne/mnemosyne/crypto/binance/s3_helpers.py:45-76 | a complete listing is a chain: the first page comes from the start, each later page from its predecessor's marker, and the last page ends it |
| BinanceS3.KeysOfAppend | mnemosyne/mnemosyne/crypto/binance/s3_helpers.py:92-99 | gathering keys distributes over a split of the pages, so each page's keys appear in page order |
| BinanceS3.KeysOfExactly | mnemosyne/mnemosyne/crypto/binance/s3_helpers.py:92-99 | a key is gathered exactly when some page lists it |
| BinanceS3.CollectKeys | mnemosyne/mnemosyne/crypto/binance/s3_helpers.py:92-99 | the loop extending the list computes `KeysOf` |
| BinanceS3.ReplaceAbsent | mnemosyne/mnemosyne/crypto/binance/s3_helpers.py:129 | replacing a text that does not occur changes nothing |
| BinanceS3.PyPairAgrees | mnemosyne/mnemosyne/crypto/binance/s3_helpers.py:117-132 | on a common prefix "{fixed}{pair}/" the double-slash `replace` finds nothing, and the last piece after stripping '/' is the pair, just as the Rust reading gives (s3_helpers.rs:83-87) |
| Datasets.PegDependence | mnemosyne/src/datasets.rs:37-103 | the Hyperliquid directories and the UM-perp raw directory ignore the peg; every other Binance directory names the peg last, so different pegs never share a directory |
| Datasets.GridIntervalSegment | mnemosyne/src/datasets.rs:77-103 | the grid interval is a path segment of its own in every grid directory |
| Datasets.PythonMatchesRust | mnemosyne/python/mnemosyne/dataset/dataset_types.py:30-92 | the pure-Python enum, whose values and printed names are the Rust variants' `Debug` names (datasets.rs:105-111), gives the same three directories as the Rust enum for every member, peg and interval |
| Datasets.UnknownMemberFails | mnemosyne/python/mnemosyne/dataset/dataset_types.py:53-54 | a value that names no member raises `ValueError` in all three path methods |
| DatasetInterface.InsertDateSpec | mnemosyne/python/mnemosyne/dataset/interface.py:70 | inserting a date into a strictly increasing list keeps it strictly increasing and adds exactly that date |
| DatasetInterface.SortedDistinctSpec | mnemosyne/python/mnemosyne/dataset/interface.py:70 | `sorted(unique(...))` is strictly increasing and holds exactly the dates given |
| DatasetInterface.Uncached | mnemosyne/python/mnemosyne/dataset/interface.py:239 | a partition is left to check exactly when it is not cached |
| DatasetInterface.LoadCache | mnemosyne/python/mnemosyne/dataset/interface.py:78-89 | the cache holds the dates the file lists, and none when the file is missing or cannot be read |
| DatasetInterface.UniversePartitions | mnemosyne/python/mnemosyne/dataset/interface.py:63-70 | construction fails exactly when the universe lacks the "date" or the "symbol" column; otherwise the partitions are strictly increasing and are exactly the universe's dates |
| DatasetInterface.ZipMap | mnemosyne/python/mnemosyne/dataset/interface.py:148 | `dict(zip(...))` has exactly the keys given, each mapped to a value paired with it |
| DatasetInterface.ZipIntoConst | mnemosyne/python/mnemosyne/dataset/interface.py:366-372 | writing one flag for every date of a batch adds the batch's dates with that flag and keeps the other entries |
| DatasetInterface.SpreadOneOutcome | mnemosyne/python/mnemosyne/dataset/interface.py:366-372 | one batch's outcome gives each of its dates the batch's success flag and leaves the other dates alone |
| DatasetInterface.SpreadFlags | mnemosyne/python/mnemosyne/dataset/interface.py:363-372 | with disjoint batches and the outcomes the pool gives, the map holds exactly the batches' dates, each with its own batch's flag |
| DatasetInterface.ChunksDisjoint | mnemosyne/python/mnemosyne/dataset/interface.py:351 | the chunks of a sorted list without repeats share no date |
| DatasetInterface.BatchFlags | mnemosyne/python/mnemosyne/dataset/interface.py:347-375 | spreading the outcomes of the chunks of the sorted dates gives each date, and no other, the success flag of the very chunk that holds it |
| DatasetInterface.ChunksNonEmpty | mnemosyne/python/mnemosyne/dataset/interface.py:351 | every chunk holds at least one date |
| DatasetInterface.ByDateDataview.constructor | mnemosyne/python/mnemosyne/dataset/interface.py:58-76 | the view keeps its settings, makes a process pool of `num_workers`, and starts with the dates the cache file lists |
| DatasetInterface.ByDateDataview.Open | mnemosyne/python/mnemosyne/dataset/interface.py:58-76 | opening fails exactly when the universe lacks "date" or "symbol"; otherwise the partitions are the universe's dates in strictly increasing order and the cache is what the file lists |
| DatasetInterface.ByDateDataview.UpdateValidations | mnemosyne/python/mnemosyne/dataset/interface.py:189-203 | the one place the cache changes: in memory the new dates are added and then the outdated removed, so an outdated date is never valid afterwards; with `file` a successful save writes the new cache; with neither nothing changes |
| DatasetInterface.ByDateDataview.ValidPartition | mnemosyne/python/mnemosyne/dataset/interface.py:205-223 | a cached date is valid without a check; otherwise the check's verdict is returned, the date added to or removed from the cache by it, and the cache saved |
| DatasetInterface.ByDateDataview.ValidatePartition | mnemosyne/python/mnemosyne/dataset/interface.py:225-228 | raises "Invalid partition" exactly when `valid_partition` says no; afterwards the date is cached exactly when it was valid |
| DatasetInterface.ByDateDataview.CheckPartitionsBatch | mnemosyne/python/mnemosyne/dataset/interface.py:132-151 | each date is mapped to its check's verdict, and a crashed check counts as invalid |
| DatasetInterface.ByDateDataview.InvalidPartitions | mnemosyne/python/mnemosyne/dataset/interface.py:230-249 | checks every partition with `recompute`, else only the uncached ones, returning at once when there are none; the cache gains the valid dates and loses the invalid ones; the answer is the invalid dates found with `recompute`, else every partition still uncached |
| DatasetInterface.ByDateDataview.Validate | mnemosyne/python/mnemosyne/dataset/interface.py:251-255 | succeeds exactly when every partition checked is valid, and afterwards every partition is cached |
| DatasetInterface.ByDateDataview.ClearValidationCache | mnemosyne/python/mnemosyne/dataset/interface.py:292-301 | `memory` empties the cache; `file` deletes an existing cache file when the deletion succeeds |
| DatasetInterface.ByDateDataview.ComputePartitionsBatch | mnemosyne/python/mnemosyne/dataset/interface.py:347-375 | no dates give an empty map; a batch size of 0 raises as `range` does; otherwise the keys are exactly the dates given and every date in chunk `j` of the sorted dates gets the success flag of chunk `j` |
| DatasetInterface.ByDateDataview.SpreadLoop | mnemosyne/python/mnemosyne/dataset/interface.py:365-372 | the flatten loop computes `Spread` of the chunks and their outcomes |
| DatasetInterface.ByDateDataview.Compute | mnemosyne/python/mnemosyne/dataset/interface.py:377-394 | computes every partition with `recompute`, else the uncached ones and nothing when there are none; every processed date in chunk `j` of the sorted processed dates is flagged with chunk `j`'s outcome; successful dates are cached and failed ones dropped from the cache; raises exactly when some date failed |
| Multiprocessing.ChunkCount | atlas/python/atlas/multiprocessing.py:24 | there is one chunk per step of `range(0, len(lst), k)`: the length divided by `k`, rounded up |
| Multiprocessing.ChunkAt | atlas/python/atlas/multiprocessing.py:24 | chunk `j` is the slice `lst[j*k : j*k + k]`, cut at the end of the list, and it starts inside the list |
| Multiprocessing.ChunksShape | atlas/python/atlas/multiprocessing.py:16-24 | concatenating the chunks gives the list back; every chunk but the last holds exactly `k` elements and the last between 1 and `k`; there are no chunks exactly when the list is empty |
| Multiprocessing.ChunkListShape | atlas/python/atlas/multiprocessing.py:16-24 | `chunk_list` fails exactly for a zero size (the `%` or `range` error) or, under `assert_div`, a length the size does not divide, the latter with that message; a positive size gives the list back in chunks of 1 to `size` elements; a negative size gives no chunks |
| Multiprocessing.ChunkListExamples | mnemosyne/mnemosyne/multiprocessing.py:43-50 | the three examples documented for `chunk_list` |
| Multiprocessing.RunPool | atlas/python/atlas/multiprocessing.py:48-69 | whatever order the tasks complete in, the call succeeds exactly when every task yields a value or `on_error` replaces its exception, and then result `i` is task `i`'s; otherwise the error is the exception of the first task, in completion order, that raised without a handler |
| Multiprocessing.ResultsInInputOrder | atlas/python/atlas/multiprocessing.py:47-69 | two successful runs over the same arguments give the same results, whatever the completion order |
| Multiprocessing.CeilDiv | atlas/python/atlas/multiprocessing.py:86-88 | `math.ceil(n / d)` for a positive `d` is the least `r` with `r * d >= n` |
| Multiprocessing.MapAll | atlas/python/atlas/multiprocessing.py:91 | `[fn(arg) for arg in args]`, when no call raises, holds `fn` of each argument at its index |
| Multiprocessing.FlattenMapAll | atlas/python/atlas/multiprocessing.py:91-96 | mapping chunk by chunk and concatenating the results is mapping the concatenated chunks |
| Multiprocessing.ChunkResults | atlas/python/atlas/multiprocessing.py:91 | when no argument raises, every chunk's task succeeds with `fn` of each of its arguments |
| Multiprocessing.ApplyInChunks | atlas/python/atlas/multiprocessing.py:89-96 | for a positive batch size, arguments present and no call raising, the result is `fn` of every argument in order; a non-positive size or no arguments fails (no chunks, and `reduce` of nothing); without `on_error` a raising call fails the whole |
| Multiprocessing.ParallelMap.constructor | atlas/python/atlas/multiprocessing.py:28-38 | the pool size defaults to the logical CPU count; the other settings are kept |
| Multiprocessing.ParallelMap.Call | atlas/python/atlas/multiprocessing.py:40-69 | the call succeeds exactly when every task settles, and then result `i` is task `i`'s settled value, in input order |
| Multiprocessing.ParallelMap.ChunkApply | atlas/python/atlas/multiprocessing.py:71-96 | giving both sizes is an error; with the batch size chosen (from `num_chunks`, else given, else one batch per worker) and positive, arguments present and no call raising, the result is `fn` of every argument in order; no arguments fail; without `on_error` a raising call fails |
| MnemosyneMultiprocessing.BatchSizesAgree | mnemosyne/mnemosyne/multiprocessing.py:114-122 | this copy's batch size, reached through `num_chunks = max_workers`, is the same size or the same error as the atlas copy's (atlas/python/atlas/multiprocessing.py:81-88) |
| MnemosyneMultiprocessing.DefaultBatchSize | mnemosyne/mnemosyne/multiprocessing.py:119-122 | with no size given a batch holds the arguments divided evenly between the workers, rounded up |
| MnemosyneMultiprocessing.ParallelMap.constructor | mnemosyne/mnemosyne/multiprocessing.py:60-86 | the pool size defaults to the physical CPU count; the other settings are kept |
| MnemosyneMultiprocessing.ParallelMap.Call | mnemosyne/mnemosyne/multiprocessing.py:88-112 | on threads or processes alike the call succeeds exactly when no task raises, and then holds `fn` of every argument in input order |
| MnemosyneMultiprocessing.ParallelMap.ChunkApply | mnemosyne/mnemosyne/multiprocessing.py:114-128 | giving both sizes is an error; for a positive batch size over at least one argument with no call raising the result is `fn` of every argument in order; no arguments fail; a success means no call raised |
| CtdpState.Drop | atlas/python/atlas/ctdp/state.py:213-214 | dropping a column keeps exactly the other columns, in their order, and adds nothing |
| CtdpState.DropConcat | atlas/python/atlas/ctdp/state.py:213-217 | dropping from a horizontal concatenation drops from each part; a lone column goes or stays whole |
| CtdpState.DropAbsent | atlas/python/atlas/ctdp/state.py:231-233 | dropping a column the table does not have changes nothing |
| CtdpState.RangeFound | atlas/python/atlas/ctdp/state.py:236-252 | the range is None exactly when the table has no such column; with distinct names it is the (min, max) rows of that column |
| CtdpState.RangeConcat | atlas/python/atlas/ctdp/state.py:250-252 | the range of a column is read from its first entry, whatever follows |
| CtdpState.RangeAfterDrop | atlas/python/atlas/ctdp/state.py:220-233 | after dropping `c` the table has no range for `c` and every other column keeps its range |
| CtdpState.UpdateShape | atlas/python/atlas/ctdp/state.py:187-217 | on an empty table the result is the single new column; otherwise the old column is dropped, the rest keep their order and the new (min, max) comes last; distinct names stay distinct |
| CtdpState.RangeAfterUpdate | atlas/python/atlas/ctdp/state.py:187-252 | after `update_filter(c, lo, hi)` the range of `c` is `(lo, hi)` and every other column keeps its range |
| CtdpState.RemoveShape | atlas/python/atlas/ctdp/state.py:220-233 | the same table when the column is absent; otherwise the column is gone and every other keeps its range; removing twice is removing once |
| CtdpState.UpdateThenRemove | atlas/python/atlas/ctdp/state.py:187-233 | updating a column and then removing it leaves the table as removing it alone would |
| CtdpState.NewMetadata | atlas/python/atlas/ctdp/state.py:15-29 | a new record takes the configured tick and column counts, version "0.1.0" and the creation time given |
| CtdpState.ToDict | atlas/python/atlas/ctdp/state.py:31-33 | `asdict` has exactly one entry per field, under the field's name |
| CtdpState.MetadataRoundTrip | atlas/python/atlas/ctdp/state.py:31-38 | `from_dict(m.to_dict()) == m`, whatever the clock says |
| CtdpState.FromDictAccepts | atlas/python/atlas/ctdp/state.py:35-38 | `cls(**data)` accepts exactly the dictionaries whose keys are fields, include the three required ones and hold values of the right kind; the record serialises back to the given entries, and every missing field takes its default |
| CtdpState.DefaultsAgree | atlas/python/atlas/ctdp/state.py:23-38 | a dictionary of the three required fields gives the record the constructor gives with its defaults |
| Indexing.SplitOnTextJoin | metis/python/metis/utils/indexing.py:30 | `pattern.split('...')` loses nothing: joining the pieces with the separator gives the pattern back |
| Indexing.SplitOnTextFound | metis/python/metis/utils/indexing.py:30-33 | a second piece exists only when the separator occurs in the text |
| Indexing.AssertNotIncompatible | metis/python/metis/utils/indexing.py:4-41 | the two loops raise "is not compatible" exactly when the patterns conflict: without an ellipsis in either, when the token counts differ or some position holds two different names neither of them a wildcard; with one, when such a clash occurs among the aligned leading tokens or the aligned trailing tokens |
| Indexing.LeadingAgree | metis/python/metis/utils/indexing.py:26-28 | the forward scan over paired tokens finds no clash exactly when every aligned pair is equal or holds a wildcard |
| Indexing.TrailingAgree | metis/python/metis/utils/indexing.py:38-41 | the scan from the end over `right_a[-(i+1)]`, `right_b[-(i+1)]` finds no clash exactly when every pair aligned from the end agrees |
| Indexing.CompatibleSymmetric | metis/python/metis/utils/indexing.py:18-41 | compatibility does not depend on the order of the patterns, and every pattern is compatible with itself |
| Indexing.KeptReducedPartition | metis/python/metis/utils/indexing.py:58-60 | the kept and the reduced axes split the input axes between them: their counts add up, and dealing them back out by the output pattern gives the input axes in order |
| Indexing.ParseEinopsAxesSpec | metis/python/metis/utils/indexing.py:44-60 | fails exactly when the two patterns have different token counts, and otherwise partitions the input axes into kept and reduced |
| Indexing.FirstVariadic | metis/python/metis/utils/indexing.py:87-91 | finds the first `...` or `*` token, or reports that there is none |
| Indexing.First | metis/python/metis/utils/indexing.py:96 | `list.index` finds the first place of the value |
| Indexing.FindDimLoop | metis/python/metis/utils/indexing.py:83-107 | the two scans of `find_dim` compute `FindDim` |
| Indexing.FindVariadic | metis/python/metis/utils/indexing.py:87-91 | the scan stops at the first `...` or `*` and returns its index, and returns -1 exactly when there is none |
| Indexing.CountPlainBefore | metis/python/metis/utils/indexing.py:99-104 | the count returned at the axis's first place is the number of tokens before it other than `(`, `)`, `...` and `*` |
| Indexing.PlainIndex | metis/python/metis/utils/indexing.py:100-105 | the count kept by the positive scan at a token's place is its index among the tokens that are not brackets, `...` or `*` |
| Indexing.FindDimMeaning | metis/python/metis/utils/indexing.py:63-107 | fails exactly when the axis is not a token; a negative result, used as a Python index into the unbracketed tokens after the first `...` or `*`, lands on the axis; a non-negative one is the axis's index among the tokens other than brackets, `...` and `*` |
| Indexing.FindDimExamples | metis/python/metis/utils/indexing.py:74-77 | `find_dim('batch feature', 'feature') == 1` and `find_dim('* feature', 'feature') == -1` |
| Indexing.FindDimVariadicExamples | metis/python/metis/utils/indexing.py:78-81 | in '... last_2 last_1', `last_1` is at -1 and `last_2` at -2 |
| Indexing.Group | metis/python/metis/utils/indexing.py:134-135 | a group is bracketed by '(' and ')' |
| Indexing.StripKeeps | metis/python/metis/utils/indexing.py:136 | the final `strip` leaves alone a text that starts and ends with something other than whitespace |
| Indexing.BuildConjShapeSpec | metis/python/metis/utils/indexing.py:110-136 | fails exactly when the shapes differ in length or nothing is reduced; otherwise the result is the kept group, or "1" when nothing is kept, a space, and the reduced group |
| Indexing.BuildConjShapeExample | metis/python/metis/utils/indexing.py:124-125 | 'batch feature' normalised to '() feature' keeps `feature`, reduces `batch` and reads '(feature) (batch)' |
| FeaturePipelines.SanitizeForModuleName | metis/python/metis/featurepipeline/pipeline.py:13-15 | the name has the pattern's length, and each character outside `[a-zA-Z0-9_]` becomes '_' while the others stay |
| FeaturePipelines.SanitizeSpec | metis/python/metis/featurepipeline/pipeline.py:13-15 | a sanitized name holds only name characters; sanitizing twice is sanitizing once; a clean name is its own sanitized form |
| FeaturePipelines.SanitizedNames | metis/python/metis/featurepipeline/pipeline.py:35 | one module name per pattern, in pattern order |
| FeaturePipelines.ModuleDict | metis/python/metis/featurepipeline/pipeline.py:37-39 | the module dictionary has exactly the sanitized names as keys, each pointing at a pattern with that name |
| FeaturePipelines.ModuleDictDistinct | metis/python/metis/featurepipeline/pipeline.py:37-39 | with distinct names every pattern keeps its own entry |
| FeaturePipelines.FirstMatch | metis/python/metis/featurepipeline/pipeline.py:42-46 | finds the first pattern, in order, that fully matches the feature, or reports that none does |
| FeaturePipelines.GroupMember | metis/python/metis/featurepipeline/pipeline.py:41-58 | a feature index is in a pattern's buffer exactly when that pattern is the first, in order, to fully match the feature |
| FeaturePipelines.GroupsDisjoint | metis/python/metis/featurepipeline/pipeline.py:41-58 | no feature index is in two buffers |
| FeaturePipelines.GroupAscending | metis/python/metis/featurepipeline/pipeline.py:53 | each buffer lists its indices in strictly ascending order |
| FeaturePipelines.GroupsCover | metis/python/metis/featurepipeline/pipeline.py:41-61 | when every feature is matched, the buffers together cover every feature index |
| FeaturePipelines.MatchingIsGroup | metis/python/metis/featurepipeline/pipeline.py:44 | the `matches` comprehension over the still-unassigned features is the pattern's buffer |
| FeaturePipelines.NamesAt | metis/python/metis/featurepipeline/pipeline.py:56 | the names listed in the contiguity warning are the features at the buffer's indices |
| FeaturePipelines.ContiguousMeans | metis/python/metis/featurepipeline/pipeline.py:54-56 | a strictly ascending buffer passes the span test `len == max - min + 1` exactly when it has no gaps |
| FeaturePipelines.MatchInfoFrom | metis/python/metis/featurepipeline/pipeline.py:92-104 | the sorted table has one row per feature, in feature-index order, naming the feature |
| FeaturePipelines.RecordsAssigned | metis/python/metis/featurepipeline/pipeline.py:94-103 | the records of the first `k` buffers are the rows of the features first matched by one of the first `k` patterns |
| FeaturePipelines.RecordsLast | metis/python/metis/featurepipeline/pipeline.py:101-102 | the records of `k` buffers are those of the first `k - 1` followed by the rows of the last pattern |
| FeaturePipelines.MatchInfo | metis/python/metis/featurepipeline/pipeline.py:92-104 | `match_info` raises exactly when there are no features (the record list is empty, so the frame has no column to sort by); otherwise row `j` of the sorted table is feature `j` with the first pattern that matches it |
| FeaturePipelines.MatchInfoRows | metis/python/metis/featurepipeline/pipeline.py:92-104 | row `j` of the table sorted by feature index is feature `j` with its first matching pattern and that pattern's index |
| FeaturePipelines.MatchInfoSorted | metis/python/metis/featurepipeline/pipeline.py:92-104 | sorting the records by feature index gives one row per feature, row `j` for feature `j` with the first pattern that matches it and that pattern's index |
| FeaturePipelines.FeaturePipeline.constructor | metis/python/metis/featurepipeline/pipeline.py:23-28 | the module keeps the feature names, the pack pattern and the feature axis, with no groups yet |
| FeaturePipelines.FeaturePipeline.Create | metis/python/metis/featurepipeline/pipeline.py:23-29 | `find_dim` of '*' in the pack pattern fails first; otherwise the groups are parsed with both warnings on, and construction succeeds exactly when every feature is matched, with the feature axis, the patterns, the buffers and the group names set |
| FeaturePipelines.FeaturePipeline.ParseFeatureGroups | metis/python/metis/featurepipeline/pipeline.py:31-63 | records the patterns and the module dictionary, appends one buffer per pattern, emits each pattern's warnings in order, raises "Unmatched features" exactly when some feature is unmatched, and sets the group names only when none is |
| FeaturePipelines.FeaturePipeline.GroupFeatures | metis/python/metis/featurepipeline/pipeline.py:40-58 | the loop appends exactly one buffer per pattern, leaves unassigned exactly the features no pattern matches, and emits the warnings of every pattern in order |
| FeaturePipelines.TakeGroup | metis/python/metis/featurepipeline/pipeline.py:42-58 | one turn of the loop: the pattern's buffer, the names still unassigned after it, and its warnings |
| FeaturePipelines.RaiseWarnings | metis/python/metis/featurepipeline/pipeline.py:48-56 | the already-matched warning comes first, when enabled and there are such features, then the gap warning, when enabled and the buffer has a gap |
| FeaturePipelines.UnassignedAll | metis/python/metis/featurepipeline/pipeline.py:60-61 | no name is left after the last pattern exactly when every feature is matched |
| FeaturePipelines.StillUnmatched | metis/python/metis/featurepipeline/pipeline.py:41-46 | "still unassigned before pattern `k` and matched by it" means "first matched by pattern `k`" |
| FeaturePipelines.MatchedNames | metis/python/metis/featurepipeline/pipeline.py:45-49 | the names the pattern took are those it matches first, and the duplicates are the names it matches that an earlier pattern took |
| FeaturePipelines.RemainingStep | metis/python/metis/featurepipeline/pipeline.py:46 | removing the names pattern `k` took leaves the names no pattern up to `k` matches |
| FeatureOperations.ArgumentsAccepted | metis/python/metis/featurepipeline/operations.py:57-62 | an operation's constructor raises exactly when one of its conditions fails: no `...` in the input shape, then the operation's own checks (lines 123-124, 202-203, 226-237, 304-305, 341-343) |
| FeatureOperations.EllipsisRefusedFirst | metis/python/metis/featurepipeline/operations.py:59-60 | an input shape holding `...` is refused as not fully specified before the operation checks its own arguments |
| FeatureOperations.ClipQuantilesErrors | metis/python/metis/featurepipeline/operations.py:226-237 | `ClipQuantiles` reports the first failing check: no quantile, then the lower one outside `[0, 1]`, then the upper one, then a lower quantile not below the upper |
| FeatureOperations.NonfiniteIssuesEmpty | metis/python/metis/featurepipeline/operations.py:312-321 | nothing is listed exactly when no enabled check finds a NaN or an infinity; there are at most three issues, and none when both checks are off |
| FeatureOperations.NonfiniteCheck | metis/python/metis/featurepipeline/operations.py:312-323 | the tensor is passed through exactly when no issue is found; otherwise the call raises with the issues joined by ", " and the element count |
| FeatureOperations.FitStepState | metis/python/metis/featurepipeline/operations.py:93-100 | `fit` succeeds exactly when the tensor has the input shape, the operation is unfitted or `refit` is set, and `_fit` returns; a `fit` that returns leaves the operation fitted and one that raises leaves it as it was |
| FeatureOperations.ForwardNeedsFit | metis/python/metis/featurepipeline/operations.py:85-88 | `forward` before any `fit` raises, with "Please fit" once the shape check passes |
| FeatureOperations.FitEnablesForward | metis/python/metis/featurepipeline/operations.py:85-100 | once a `fit` returns, `forward` on a tensor of the input shape fails only when `_forward` itself raises |
| FeatureOperations.FitTwiceNeedsRefit | metis/python/metis/featurepipeline/operations.py:95-96 | a second `fit` without `refit` raises "Already fitted" and leaves the operation fitted |
| FeatureOperations.NoopFitSucceeds | metis/python/metis/featurepipeline/operations.py:103-110 | the operations whose `_fit` does nothing (lines 106-107, 207-208, 278-279, 292-293, 309-310) can always be fitted, or refitted, on a tensor of the input shape |
| FeatureOperations.ToQuantileConjShape | metis/python/metis/featurepipeline/operations.py:341-344 | an accepted `ToQuantile` keeps the conjugate shape `build_conj_shape` gives: the kept group, or "1", then the reduced group |
| FeatureOperations.FeatureOperation.constructor | metis/python/metis/featurepipeline/operations.py:57-62 | a new operation keeps its input shape and arguments and is not fitted |
| FeatureOperations.FeatureOperation.New | metis/python/metis/featurepipeline/operations.py:57-62 | construction fails exactly when an argument check fails, with that check's error; otherwise the new operation is unfitted and keeps its input shape and arguments |
| FeatureOperations.FeatureOperation.Fit | metis/python/metis/featurepipeline/operations.py:93-100 | the result and the new `is_fitted` are those of `FitStep`, whose meaning `FitStepState` states |
| FeatureOperations.FeatureOperation.Forward | metis/python/metis/featurepipeline/operations.py:85-91 | the result is that of `ForwardStep` on the current `is_fitted` |

## Left out

- Network and concurrency: the WebSocket, Unix-socket and tarpc servers and clients, the gateway's byte forwarding, the reconnect and heartbeat loops, and the publisher, subscriber and relay tasks. They are sockets and task scheduling; only their path strings feed the routing rule.
- Locks and shared ownership: the `Arc`/`Weak`/`Mutex` and `Rc`/`RefCell` identity of tree nodes. A tree is a value, and a parent link is the handle minus its last name.
- Address bindability: the check that an address can be bound (`verify_address_bindable`) and the socket bind itself. These are I/O, so their outcome is an input.
- Ipv6 text form: only the forms the allocators produce are modelled (plain groups with the "::" run, and the IPv4-mapped form). The other `Display` cases of the standard library are not.
- UlaAddresses: agora/src/constants.rs does not define the `ULA_PREFIX_SEGMENT_*` constants that addresses.rs imports. The prefix fde5:402f:ab0a:1 is taken from the comments at agora/src/utils/addresses.rs:27 and :64.
- UlaAddresses: the random generator is the sequence of values it would draw, and at least the 1000 values an allocation may draw are supplied.
- AgoraCommon.FirstInvalidChar: Rust's `char::is_alphanumeric` is Unicode-wide. The model's class is ASCII letters and digits, so a non-ASCII letter such as 'é' counts as invalid here though the source accepts it.
- AgoraCommon.StripAndVerify: uses the ASCII character class of `FirstInvalidChar`. A path with non-ASCII letters or digits is refused here though the source accepts it.
- HyperliquidUniverse.Sanitize: keeps ASCII alphanumerics, '-' and '_' only. The source's `is_alphanumeric` also keeps non-ASCII letters and digits.
- BinanceWebstream.StreamNames: `to_lowercase` is Unicode lower-casing, while the model lower-cases ASCII letters only. The two agree on the ASCII symbols Binance lists.
- BinanceWebstream.LowerNames: ASCII lower-casing, as for `StreamNames`.
- BinanceWebstream.DispatchRoutesBySymbol: the symbol of a message is lower-cased in ASCII only, as for `StreamNames`.
- BinanceWebstream.CaseInsensitiveRouting: "differs only in case" means ASCII case, as for `StreamNames`.
- Archiver.ParseShape: lengths and slice positions count characters, while the source counts UTF-8 bytes. The two agree on ASCII file names. For a name with multi-byte characters the source may refuse it differently or panic when slicing inside a character (for instance "dir/ééééééééé.pq"), and the model does not capture this.
- HTTP fetches: Hyperliquid `fetch_perp_meta` and `fetch_spot_meta`, the Binance REST call and the S3 requests. Their outcomes are inputs.
- Logging: `eprintln!`, `logger` and `tqdm` output are left out.
- Clock: `Utc::now` and `datetime.now` are the `now` parameter. chrono's parser and the machine's time zone are the archiver's `Clock`.
- Float parsing and formatting: a numeric text arrives with the outcome of `str::parse::<f64>`. `Display` number formatting is not modelled, so the Binance depth display states only its row count.
- BinanceRecords: the `.expect("Invalid event time")` panic on an out-of-range event time is a `Failure`, not a process abort.
- Arrow and Parquet: record-batch schemas other than the order-book level columns and their offsets; file reads, writes, recompression and merges; directory scans (listings are inputs).
- Archiver: `Path` edge cases (non-UTF-8 names, files without an extension) are not modelled. File names are texts.
- BinanceS3: the AWS SDK paginator is the list of pages it yields. The Rust `HashSet` is a set, so its iteration order is not modelled.
- BinanceS3.Pages: the Python pagination loop is bounded by a fuel count of pages. A listing longer than the fuel is not modelled.
- BinanceS3.Continuation: `str.lower` is ASCII lower-casing.
- BinanceLastTrades: the date pattern's `\d` is read as ASCII digits, and `i64` overflow in the timestamp conversion is not modelled.
- BinanceLastTrades.UniverseExactly: the universe is stated as a set of rows. The order that `buffer_unordered` produces is not modelled.
- BinanceLastTrades.UniverseExactly: the strict `to_date` conversion is taken to infer "%Y-%m-%d" from the matched date texts, so it fails exactly when a text is not a calendar day. Its error is modelled by its kind; the counts and sample values polars appends are not rendered.
- BinanceLastTrades: downloads, unzipping and CSV/Parquet conversion are I/O and are left out.
- Datasets: a Python enum member is modelled by its value, which the `if`/`elif` chains compare against.
- Multiprocessing: the process and thread pools, progress bars and `mp_context` are left out. The completion order of `as_completed` is a `Schedule` parameter.
- Multiprocessing: `psutil.cpu_count` is a parameter and is never `None`. `math.ceil(n / d)` is exact integer ceiling division, not float division.
- DatasetInterface: the JSON cache file is the set of dates it lists, and whether it can be read or saved is an input. Parquet reads, `lazyframe`, `__getitem__` and the symbol enum are left out. `_valid_partition` and `_compute_partitions` are the parameters `valid` and `worker`.
- DatasetInterface.UniversePartitions: the schema error omits the " Schema: {universe_schema}" tail, because polars' schema rendering is not modelled.
- DatasetInterface.ByDateDataview.Open: the schema error omits its schema tail, as for `UniversePartitions`.
- DatasetInterface.ByDateDataview.Validate: the "failed validation" error renders the count of invalid partitions but not the ":\n{sorted(invalid)}" list of `datetime.date` reprs.
- DatasetInterface.ByDateDataview.Compute: the "Computation failed" error renders the count of failed partitions but not the ":\n{sorted(failed)}" list.
- DatasetInterface.ByDateDataview.ComputePartitionsBatch: `sorted(dates)` is modelled as the sorted distinct dates. The dates passed are partitions, which come from a `unique()` column, so none repeats and the two agree.
- LegacyRegistry.Remove: the refusal for child publishers omits the " {:?}. Remove children first." tail, because Rust's `Debug` rendering of the child list is not modelled.
- CtdpState: the filter `DataFrame` is a sequence of named two-row columns with bounds of any type. Saving and loading files, plotting and `create_ctdp` are left out.
- CtdpState.FromDict: `cls(**data)` is modelled on the seven fields with a kind check per value. Python does not check the types of dataclass fields, so a value of the wrong kind is accepted by the source but refused here.
- Indexing: the documentation examples are stated on token lists rather than whole pattern texts. The final "Could not determine dimension" raise in `find_dim` cannot be reached once the axis is known to be a token, so it is not modelled.
- FeaturePipelines: regex compilation and full-matching are the `fullmatch` parameter. An invalid regex is not modelled.
- FeaturePipelines: torch modules, tensors, `fit`, `forward`, `fit_df` and the other DataFrame methods are left out.
- FeaturePipelines: a warning is recorded by its kind, pattern and features, not by its formatted text. The `RuntimeError` text does not render the set of unmatched names.
- FeaturePipelines.ModuleDict: when two patterns sanitize to the same name, the contract says only that the entry points at a pattern with that name. The body keeps the last such pattern, as the dictionary comprehension does, but no ensures states this.
- FeaturePipelines.MatchInfoSorted: polars' `sort` is stated as the table sorted by feature index. The sorting algorithm is not modelled. The lemma states the table for any feature count; the raise of the empty case is stated by `FeaturePipelines.MatchInfo`.
- FeatureOperations: the device check, the tensor arithmetic of every `_fit` and `_forward` (median, quantiles, `Std`, `ToQuantile`'s binary search, `ConjShapePair`) and float NaN comparisons are left out. What a tensor computation raises is a field of the `Tensor` value.
- FeatureOperations: the module's `repr` in the "Please fit" message is the operation's name.
- LegacyPathTree.DisplayProjectExample: the display example is stated through the connector constants rather than as one literal text.

## Findings

| source | as written | input that shows it | evidently intended | confidence | as-written member | corrected member |
|---|---|---|---|---|---|---|
| argus/src/crypto/binance/trades.rs:106-111 | the error for a quantity that does not parse as `f64` formats `raw.price` into the message | a trade with price "1.5" and quantity "abc": the message says "parsed size 1.5 cannot be cnoverted to f64" | the message names the quantity text that failed to parse ("parsed size abc ...") | not executed | BinanceRecords.SizeErrorShowsPrice | BinanceRecords.SizeErrorOnlyDifference |
