# A verified model of NOX

NOX is an OpenFlow controller. This project models the parts of it whose
correctness is a matter of whole runs rather than of single calls, and proves
what they are for.

- **The packet classifier** (`PacketExpr`, `RuleList`, `Cnode*`, `Classifier*`,
  `SplitLoops`). A hash-bucketed decision tree over packet fields is an index of
  the stored rules. In every state reachable by adding, deleting, changing
  priorities, building, unbuilding and cleaning, with any allocation failing at
  any point, the index holds exactly the stored rules, each once, but for those
  lost when a change of their priority threw; and the back pointers of the others
  name the nodes that hold them. A lookup that completes returns exactly the
  matching rules of the index, each once, in priority order, if and only if no
  earlier lookup that threw left nodes with matching rules on the work stack. How
  much memory each operation takes, or is enough for it, is stated too.
- **The poll loop and connections on it** (`PollLoop`, `PollOrder`,
  `PollProgress`, `PollLoopImpl`, `ConnLife`). A pool of cooperative threads hands over the role
  of polling thread and rotates a ref-counted list in place. It serves the
  registered pollables as one queue, whoever polls and wherever they block; a pass
  polls everybody; a thread that takes over goes on with the queue; and a
  closed connection is deleted exactly once, never during one of its polls.
- **The JSON parser, tree builder and printer** (`Json*`). No assertion fails on
  any text up to the first rejected character, the mode stack and the builder's
  stack mirror the open brackets, and only well-formed numbers and words are
  delivered. Every well-formed text, with any white space, comments and spelling of
  strings and numbers, is accepted and builds the tree it means; so trees without
  floats whose text needs no escape come back when printed and parsed.
- **Component resolution** (`Kernel`). The re-entrant fixpoint terminates, and
  installs exactly the well-founded part of the dependency graph, or throws; it
  throws exactly if it comes to a component whose next dependency nobody holds.
- **Message framing and the connection** (`Framing`, `FramingProgress`,
  `Connection`). Messages come out as they went in under any partial writes and read
  chunks, and without failures all of them do; the handshake, its versions, and the
  inactivity probe.
- **Netlink attributes** (`Netlink`). What the composer writes the policy parser
  reads, and the parser accepts exactly the well-formed messages within the
  policy.

Conventions: operations that allocate in the classifier take `left`, the number
of allocations (in a lookup: of pushes onto the work stack and of cursors that grow
the result) that succeed before one throws, so a statement for all `left` covers a
failure at every point. Nondeterminism of the environment (which thread
runs, how many bytes a read returns, what the network answers, the time of day)
is a parameter of the step. Bit masks are sets of bit numbers. Text is a sequence
of byte values.

Where the code and what is said about it differ, the model follows the code:

- The comment above `delete_rule` (src/include/classifier.hh:262-267) warns of
  dangling node pointers after an exception inside `build`; `BuildKeepsInv` shows
  that there are none.
- `change_rule_priority` erases the rule's list entry before it inserts the rule
  again (src/include/cnode.hh:270-275). If the insertion throws, the rule is stored
  and in no list: `LostRule` shows one, `ChangePriorityExactIff` says when. Until it
  is deleted no lookup finds it (`RunExactIff`), and once its node is freed its
  pointer dangles (`UnbuildDangles`); no other rule is affected
  (`RunKeepsInv`, `OnlyLostDangle`).
- A lookup that throws leaves nodes in `to_traverse`, which is a member of the
  classifier, and the next lookup visits them again: `FailedLookupDoubles` shows a
  rule that is due twice, and the contract of `Query` says exactly when the answer
  is right.
- `matches` on two expressions is containment of their sets of flows except when
  the rule's VLAN priority does not fit into eight bits: `ContainmentIffInRange`.
- A `]` or `}` after a complete JSON text makes the builder pop an empty list
  before the parser rejects the character: `LateBracket` shows one, `CharSafe` that
  there is no other way.
- The mode stack of the JSON parser needs one entry more than `depth`, so it
  outgrows its room for depths of 128 and more: `StackFits`.
- A comment may stand before the last letter of `true`, `false` and `null`, and then
  counts for the rest of the word: `CommentSkipped`, in the states of those letters.
- A zero takes no exponent, which section 6 of RFC 8259 allows: `ZeroTakesNoExponent`.
- A string with a NUL in it is cut short by the builder: `CStringExact`.
- The printer escapes nothing (src/lib/json_object.cc:140-146), so a string with a
  quote, a backslash or a byte below 0x20 does not read back:
  `StringReadsBackIff`.
- A missing dependency throws out of `Kernel::resolve` with `installing` still set,
  and later calls of `install` return normally without installing:
  `MissingDependency` shows it, and the contracts of `Resolve` and `Install` say
  exactly when.
- `put_unspec` accepts payloads of 65532 to 65535 bytes, whose length field wraps;
  no policy parses such a message: `TooLongIsRefused`, `ComposedParsesIff`.

## Model

| member | source | states |
|---|---|---|
| PacketExpr.MatchAgreesOnField | src/lib/expr.cc:32-144 | a rule that matches a flow or pattern agrees with it in every field both have: looking in one bucket and the any-branch cannot miss a match |
| PacketExpr.MatchIsContainment | src/lib/expr.cc:216-283 | for expressions over flow fields, the rule matches a pattern if and only if every flow the rule matches is matched by the pattern (and the pattern wildcards what no flow has) |
| PacketExpr.ContainmentIffInRange | src/lib/expr.cc:248-283 | that reading of matching is right against all patterns exactly when the rule's VLAN priority fits eight bits or is wildcarded |
| PacketExpr.FixedFieldMatches | src/lib/expr.cc:216-246 | field by field: an expression that fixes one matches exactly the flows with that value |
| PacketExpr.MatchesByField | src/lib/expr.cc:216-246 | and one that fixes several matches exactly if each of them does |
| RuleList.InsertSorted | src/include/cnode.hh:185-198 | inserting a rule keeps a list sorted by priority |
| RuleList.InsertBag | src/include/cnode.hh:185-198 | and adds exactly that rule |
| RuleList.AddRuleToList | src/include/cnode.hh:185-198 | the loop over the list computes that insertion |
| RuleList.MergeBag | src/include/cnode.hh:573-595 | merging two lists keeps all their rules, with multiplicity |
| RuleList.MergeSorted | src/include/cnode.hh:573-595 | and keeps them sorted |
| RuleList.WithoutBag | src/include/cnode.hh:289-306 | removing by id takes out that rule and no other |
| CnodeTree.AddRuleCopies | src/include/cnode.hh:216-255 | adding a rule changes the number of copies of every rule, at every node, by exactly the one placed; nothing if an allocation failed |
| CnodeTree.AddRuleUses | src/include/cnode.hh:216-255 | at most one node is added, at a fresh address, and no node is shared |
| CnodeTree.AddRuleWF | src/include/cnode.hh:216-255 | every rule stays in the bucket and chain its field value hashes to, split fields on a path stay distinct, lists stay sorted |
| CnodeTree.AddRuleIff | src/include/cnode.hh:185-255 | adding goes through if and only if a list entry can be allocated, and a node where the tree has no child for the rule |
| CnodeTree.DistinctEntries | src/include/cnode.hh:545-570 | if every rule is in the tree at most once, no id occurs twice among the entries of its lists |
| CnodeBuild.DoubleUntil | src/include/cnode.hh:478-500 | the number of buckets stays a power of two and reaches its target |
| CnodeBuild.ChoiceSeparates | src/include/cnode.hh:478-515 | a split is only chosen on a field in which two of the rules differ: what the arithmetic of the threshold comes to |
| CnodeBuild.ChoiceIsBest | src/include/cnode.hh:478-490 | a split is chosen if and only if some field not yet used saves LEAF_THRESHOLD rules, and then one that leaves the fewest to check |
| CnodeBuild.NeverSplitsOnWildcarded | src/include/cnode.hh:607-683 | a field that all rules wildcard is never chosen |
| SplitLoops.ExpRulesWithSplit | src/include/cnode.hh:648-683 | the one-pass loop with a bit per bucket computes the expected number of rules and the number of buckets hit |
| SplitLoops.FindBestSplit | src/include/cnode.hh:607-640 | the loop over the fields computes the best split |
| CnodeBuild.SplitNodeCopies | src/include/cnode.hh:480-537 | splitting a node moves its rules and loses none, also when memory runs out in a node that is not a copy |
| CnodeBuild.SplitNodeWF | src/include/cnode.hh:480-537 | and leaves a well-formed tree |
| CnodeBuild.SplitTable | src/include/cnode.hh:490-499 | a fresh table has at least three times, and less than six times, as many buckets as its rules fall into |
| CnodeBuild.SetNodePointersOK | src/include/cnode.hh:545-570 | after set_node_pointers every rule of the subtree points to the node whose list holds it, and no other pointer changed |
| CnodeBuild.BuildCopies | src/include/cnode.hh:333-420 | build keeps every rule as often as it was, on success and, in the master tree, on failure |
| CnodeBuild.BuildWF | src/include/cnode.hh:333-420 | and keeps the tree well-formed |
| CnodeBuild.BuildUses | src/include/cnode.hh:333-420 | and never links a node twice: replaced nodes are unlinked, new ones fresh |
| CnodeBuild.CopyPtrs | src/include/cnode.hh:333-420 | building a copy touches no back pointer |
| CnodeBuild.BuildPtrs | src/include/cnode.hh:333-420 | building the master tree keeps every back pointer right, wherever an allocation fails |
| CnodeBuild.ReplacedIsUnreferenced | src/include/cnode.hh:154-180 | when a replaced subtree is destroyed, no rule points into it any more |
| CnodeEdit.EditCopies | src/include/cnode.hh:263-306 | removing or re-prioritising a rule through its node changes that one list and nothing else in the tree |
| CnodeEdit.EditWF | src/include/cnode.hh:263-306 | and keeps the tree well-formed |
| CnodeClean.CleanCopies | src/include/cnode.hh:764-800 | clean moves no rule |
| CnodeClean.CleanWF | src/include/cnode.hh:764-800 | and keeps the tree well-formed |
| CnodeClean.CleanLeavesNoneBare | src/include/cnode.hh:764-800 | no child without rules below it is left |
| CnodeClean.CleanIsBareIffEmpty | src/include/cnode.hh:764-800 | clean tells the parent to free a node exactly if no rule is below it |
| CnodeClean.GatherCopies | src/include/cnode.hh:437-456 | unbuild gathers exactly the rules of the tree |
| CnodeClean.GatherSorted | src/include/cnode.hh:573-595 | in one sorted list |
| CnodeCost.GatherIff | src/include/cnode.hh:437-456 | gathering takes one allocation for each rule, and goes through exactly if there are as many |
| CnodeCost.UnbuildIff | src/include/cnode.hh:437-456 | unbuild of a split tree takes one more |
| CnodeCost.SplitNodeSize | src/include/cnode.hh:480-537 | a split takes at most two allocations for each rule and three besides, and keeps their number |
| CnodeCost.BuildGoesThrough | src/include/cnode.hh:333-420 | build goes through with five allocations for each rule on each level of fields left, whatever has to be split |
| CnodeShape.BuildSettles | src/include/cnode.hh:333-420 | after a build that succeeds no leaf wants a split |
| CnodeShape.SettledStays | src/include/cnode.hh:333-420 | a tree in which no leaf wants a split comes out of build as it went in, even if memory runs out |
| CnodeShape.SecondBuildIsIdle | src/include/cnode.hh:333-420 | a second build alters neither tree nor back pointers |
| CnodeShape.DepthBound | src/include/cnode.hh:333-420 | since split fields on a path are distinct, the depth is at most the number of fields not yet used |
| CnodeShape.FreshSplitShrinks | src/include/cnode.hh:478-537 | every child of a fresh split holds strictly fewer rules than the node had |
| CnodeShape.BuildSplits | src/include/cnode.hh:333-420 | build only splits on fields that some rule fixes |
| CnodeResult.Results.Push | src/include/cnode-result.hh:101-114 | a non-empty list becomes one more cursor, after the others; it throws exactly if the vector has to grow and cannot, and then nothing has changed |
| CnodeResult.Results.Look | src/include/cnode-result.hh:132-151 | one round of the scan: mark, skip with swap of an exhausted list, or pass |
| CnodeResult.Results.Next | src/include/cnode-result.hh:125-166 | returns a matching rule of least priority number among all rules still ahead and takes it out once; none exactly if no matching rule is ahead; every other match stays ahead |
| CnodeResult.SmallestAhead | src/include/cnode-result.hh:125-166 | because lists are sorted, comparing the heads decides for all rules ahead |
| CnodeLookup.PushesKeepMatches | src/include/cnode.hh:713-755 | the children a traversal goes on to hold every matching rule below the node, as often as the node does |
| CnodeLookup.PushesWeigh | src/include/cnode.hh:713-755 | and they weigh less than the node: the work stack drains |
| CnodeLive.VisitCovers | src/include/cnode.hh:713-755 | a visit keeps lists recorded and nodes to visit together covering the matching rules, those below nodes left on the stack included |
| CnodeLive.DeleteKeepsLive | src/include/classifier.hh:297-317 | deleting the rule just returned leaves every other cursor in its list, at the same rules |
| CnodeWalk.WithinFound | src/include/cnode.hh:713-755 | an address on the work stack leads to the node it was pushed for |
| CnodeWalk.VisitReady | src/include/cnode.hh:713-755 | a visit, completed or not, leaves only nodes of the tree on the stack; a completed one lessens the weight of the stack |
| CnodeWalk.DriveCovers | src/include/classifier.hh:353-364 | a walk that completes has every rule that matches ahead of a cursor, as often as it is below the root and below the nodes the stack had before; one that throws leaves only nodes of the tree on the stack |
| CnodeWalk.DriveThrowsIff | src/include/cnode.hh:713-755 | a walk throws if and only if fewer allocations are left than it makes pushes and growing cursors |
| CnodeWalk.NeedsBound | src/include/cnode.hh:713-755 | which are at most two for each node of the tree |
| ClassifierState.InitialInv | src/include/classifier.hh:92-115 | a new classifier, default or with a forced first split, is a sound index |
| ClassifierState.AddKeepsInv | src/include/classifier.hh:200-228 | add_rule stores the rule or leaves the stored rules as they were; the index stays exact |
| ClassifierState.AddIff | src/include/classifier.hh:200-228 | add_rule goes through if and only if three allocations succeed, four where the tree needs a new node |
| ClassifierState.PointerFindsRule | src/include/classifier.hh:269-287 | the back pointer of a stored rule that is not lost names a node that is in the tree once and whose list holds that rule, and no other of its id |
| ClassifierState.DeleteKeepsInv | src/include/classifier.hh:269-287 | delete_rule removes the rule of that id and only it, and a lost rule is lost no longer |
| ClassifierState.ChangePriorityKeepsInv | src/include/cnode.hh:263-283 | change_rule_priority changes that rule's priority and nothing else; if the insertion throws, that rule is lost from the index and all others stay indexed |
| ClassifierState.ChangePriorityExactIff | src/include/cnode.hh:263-283 | from an exact state it leads to an exact state if and only if no rule has the id or the list entry can be allocated |
| ClassifierState.LostIsInexact | src/include/cnode.hh:263-283 | an index that has lost rules is not exact, and one that has lost none is |
| ClassifierState.LostRule | src/include/cnode.hh:263-283 | a rule added to an empty classifier, whose priority change throws, is stored while the tree is empty |
| ClassifierState.OnlyLostDangle | src/include/classifier.hh:262-287 | only the pointer of a lost rule can name a freed node |
| ClassifierState.UnbuildDangles | src/include/cnode.hh:154-180 | and after a split tree is unbuilt it does |
| ClassifierState.BuildKeepsInv | src/include/classifier.hh:323-331 | build keeps the stored rules and the index, exact but for the lost rules, wherever it fails |
| ClassifierState.UnbuildKeepsInv | src/include/classifier.hh:334-342 | unbuild leaves a single sorted node, or on failure the tree as it was |
| ClassifierState.SizeIs | src/include/cnode.hh:545-570 | the tree holds as many rules as are stored and not lost |
| ClassifierState.BuildSucceeds | src/include/classifier.hh:323-331 | five allocations for each stored rule, on each of the levels there can be, are enough for build |
| ClassifierState.UnbuildSucceedsIff | src/include/classifier.hh:334-342 | unbuild succeeds if and only if there is nothing to do or one allocation for each rule of the index, and one more, succeed |
| ClassifierState.CleanKeepsInv | src/include/cnode.hh:764-800 | clean keeps the exact index |
| ClassifierRuns.StepKeepsInv | src/include/classifier.hh:169-342 | every operation, wherever it fails, keeps the index exact but for the lost rules, and changes the table of rules as it says |
| ClassifierRuns.RunKeepsInv | src/include/classifier.hh:169-342 | in every state reachable by any run, with any failing allocations, the index holds exactly the stored rules but those whose priority change threw and that were not deleted since |
| ClassifierRuns.RunExactIff | src/include/classifier.hh:169-342 | a run from an exact state ends in one if and only if no such rule is left; in particular if no priority change throws, whatever else does |
| ClassifierRuns.RunKeepsShape | src/include/cnode.hh:333-420 | over every run the tree splits only on fields some rule fixed |
| ClassifierRuns.DepthOverRuns | src/include/cnode.hh:333-420 | no reachable tree is deeper than the number of splittable fields |
| ClassifierRuns.FlowLookupsNeverAskForApDst | src/lib/expr.cc:32-80 | if every rule added wildcards AP_DST, no reachable tree splits on it, so a lookup by flow never reaches the assertion |
| ClassifierObject.Classifier.GetId | src/include/classifier.hh:169-193 | the id is not in use; it fails exactly if all are |
| ClassifierObject.Classifier.AddRule | src/include/classifier.hh:200-228 | the table gains the new rule, or nothing changes; the former if and only if an id is free and the allocations it needs succeed |
| ClassifierObject.Classifier.DeleteRule | src/include/classifier.hh:269-287 | the table loses that id; the result says whether it was there |
| ClassifierObject.Classifier.ChangeRulePriority | src/include/classifier.hh:230-246 | the table changes in that rule's priority only; the result says whether the rule was in the index, and whether it has been lost from it |
| ClassifierObject.Classifier.Build | src/include/classifier.hh:323-331 | the table does not change; on success the tree is settled; it succeeds if memory is enough for the number of rules |
| ClassifierObject.Classifier.Unbuild | src/include/classifier.hh:334-342 | the table does not change; on success the tree is one node; exactly when it succeeds |
| ClassifierObject.Classifier.GetRules | src/include/classifier.hh:353-364 | what is on the work stack is visited too; it throws if and only if it needs more allocations than are left, never with two for each node; if it completes, the stack is empty and every matching rule is ahead of a cursor in a live list as often as it is due; if it throws, exactly what is left on the stack |
| ClassifierObject.Classifier.Query | src/include/classifier.hh:353-364 | throws exactly if memory runs out; otherwise get_rules and next until the end yield, sorted, each matching rule of the index once and once more for each leftover node it is below; so the tree refines a sorted linear scan if and only if no matching rule is below a leftover node |
| ClassifierObject.FailedLookupDoubles | src/include/classifier.hh:353-364 | in a reachable state, a lookup that throws leaves a node on the stack with which a matching rule is due twice at the next one |
| ClassifierObject.TwoRulesInv | src/include/classifier.hh:200-228 | that state is reached by adding two rules |
| ClassifierObject.Classifier.DeleteRules | src/include/classifier.hh:297-317 | deletes exactly the matching rules of the index while iterating over the live lists, and returns their number; if the lookup throws, which it does exactly if memory runs out, nothing is deleted |
| PollLoop.InitialInv | src/lib/poll-loop.cc:62-106 | when run() enters the loop the invariant holds |
| PollLoop.StepInv | src/lib/poll-loop.cc:79-209 | kept by every step: a node's reference count is the number of threads inside it; a removed node stays only while held; each thread is polling, dormant, or inside a poll that blocked; nobody is dormant without a polling thread; no thread is dormant twice |
| PollLoop.OnlyThePollingThread | src/lib/poll-loop.cc:121-209 | the assertions about polling_thread hold: a thread that starts a pass, wakes up or runs its hook is the polling thread |
| PollLoop.BlockInv | src/lib/poll-loop.cc:193-209 | the hook runs only in the polling thread, appoints a dormant thread or leaves none polling |
| PollLoop.NodeLifetime | src/lib/poll-loop.cc:86-120 | a step erases a node exactly if its pollable is removed and no thread is inside |
| PollOrder.StepOrder | src/lib/poll-loop.cc:79-209 | every step of the loop is a step of one queue: starting a poll moves the head to the end, adding inserts, removing deletes, blocking and handing over change nothing |
| PollOrder.BlockOrder | src/lib/poll-loop.cc:193-209 | the rotation in place hands the queue over unchanged |
| PollOrder.OrderHolds | src/lib/poll-loop.cc:79-209 | the queue holds each registered pollable once |
| PollOrder.RoundRobin | src/lib/poll-loop.cc:108-209 | over every run, between two polls of one pollable every other pollable registered throughout is polled |
| PollProgress.BeginStarts | src/lib/poll-loop.cc:156-170 | a pass starts with a poll of the head of the queue, if anybody is registered |
| PollProgress.ReturnStarts | src/lib/poll-loop.cc:108-170 | when a poll returns to the polling thread, the pass goes on with the next pollable of the list, and ends only if there is none |
| PollProgress.StaysToCome | src/lib/poll-loop.cc:78-190 | whoever has yet to come in a pass stays so until polled, while pollables come and go and other threads return |
| PollProgress.PassPollsAll | src/lib/poll-loop.cc:156-190 | over every run, a pass during which no poll blocks polls every pollable registered throughout it |
| PollProgress.HandsOver | src/lib/poll-loop.cc:193-209 | a thread about to block appoints a dormant one, whose pass starts with the head of the queue as it was |
| PollProgress.TakesBack | src/lib/poll-loop.cc:172-187 | if all were busy, the first thread to return goes on with the head of the queue |
| PollLoopObject.PollLoopImpl.constructor | src/lib/poll-loop.cc:62-106 | the pool lies dormant and the caller polls |
| PollLoopObject.PollLoopImpl.AddPollable | src/lib/poll-loop.cc:78-84 | is the step Add |
| PollLoopObject.PollLoopImpl.RemovePollable | src/lib/poll-loop.cc:86-95 | is the step Remove, through the position the pollable recorded |
| PollLoopObject.PollLoopImpl.ServiceFrom | src/lib/poll-loop.cc:108-120 | the loop with references skips and erases removed nodes up to the next poll |
| PollLoopObject.PollLoopImpl.Begin | src/lib/poll-loop.cc:156-190 | is the start of a pass, by the polling thread, and polls the head of the queue |
| PollLoopObject.PollLoopImpl.Return | src/lib/poll-loop.cc:156-190 | is the return of a poll: go on with the next of the list, rest, or take the role back |
| PollLoopObject.PollLoopImpl.AppointPollingThread | src/lib/poll-loop.cc:193-209 | is the hook |
| ConnLife.StepRegistered | src/lib/poll-loop.cc:79-209 | only Add and Remove change who is registered, and only registered pollables are polled |
| ConnLife.StepPollers | src/lib/poll-loop.cc:156-209 | how a step changes the number of threads inside a pollable's poll |
| ConnLife.ActInv | src/builtin/nox.cc:215-249 | kept by every action: an open connection is registered and the one its datapath id maps to; its poll count is the number of threads inside; a closed one has been deleted once if nobody is inside, and not before |
| ConnLife.RegisterInv | src/builtin/nox.cc:1417-1433 | registering closes the older connection of the datapath id first, so the map names the open connections, one for each id |
| ConnLife.ClosedOnce | src/builtin/nox.cc:215-249 | over every run a closed connection is never entered again, and is deleted exactly once, when its last poll ends |
| ConnLife.Connections.Close | src/builtin/nox.cc:226-249 | is the action Close: the connection is off the loop and the map, deleted at once unless it is being polled, and no other is touched |
| ConnLife.Connections.Register | src/builtin/nox.cc:1417-1433 | is the action Register: the map then names the new connection, and the one it named before is closed |
| ConnLife.Connections.PollEnds | src/builtin/nox.cc:215-224 | the number of deletions of the connection rises by one exactly if it is closing and this was its last running poll, and no other connection changes |
| ConnLife.Connections.Turn | src/builtin/nox.cc:215-224 | is a step of the loop with the polls it ends and begins |
| JsonSafe.TableMoves | src/lib/JSON_parser.c:263-308 | what every entry of the table that only changes the state keeps: kind of token, place in string or comment, modes allowed |
| JsonSafe.TableActs | src/lib/JSON_parser.c:263-308 | in which states and on which characters the table asks for each action |
| JsonSafe.EndSafe | src/lib/JSON_parser.c:951-982 | a closing bracket is accepted only where it closes what is open |
| JsonSafe.BeginSafe | src/lib/JSON_parser.c:984-1006 | an opening bracket is accepted up to the depth allowed |
| JsonSafe.DecodeSafe | src/lib/JSON_parser.c:626-693 | decoding needs no more room than the escape it replaces |
| JsonSafe.CharSafe | src/lib/JSON_parser.c:766-1087 | no assertion fails on any character; the callback pops its empty stack exactly when a closing bracket follows a complete text; acceptance keeps the invariant |
| JsonSafe.TextSafe | src/lib/JSON_parser.c:766-1087 | on every text, as far as it is accepted, mode stack and builder stack mirror the brackets that a lexer knowing only strings and comments finds open |
| JsonSafe.DoneIsBalanced | src/lib/JSON_parser.c:1089-1099 | the text is taken as a whole exactly if it ends between tokens with every bracket closed, and then the builder has no container open |
| JsonTokens.NumberGrows | src/lib/JSON_parser.c:285-306 | what the table accepts within a number extends a well-formed one |
| JsonTokens.CharTokens | src/lib/JSON_parser.c:766-1087 | every accepted character keeps the buffer the beginning of a number or word, or a whole one and white space |
| JsonTokens.TextTokens | src/lib/JSON_parser.c:766-1087 | so does every text, as far as it is accepted |
| JsonTokens.DeliversNumber | src/lib/JSON_parser.c:580-619 | what is delivered for a number is the value of a well-formed one |
| JsonText.StringDelivered | src/lib/JSON_parser.c:695-757 | a string spelled with plain bytes, short escapes and Unicode escapes in any mixture puts the text it means into the tree |
| JsonText.CommentSkipped | src/lib/JSON_parser.c:899-937 | a comment, wherever the table allows one, delivers a pending value and otherwise changes nothing |
| JsonValues.NumberFed | src/lib/JSON_parser.c:263-308 | every number, with any sign, fraction and exponent, is accepted and stands in the buffer as written |
| JsonValues.ZeroTakesNoExponent | src/lib/JSON_parser.c:286 | but a zero followed by an exponent is rejected |
| JsonDoc.GapSkipped | src/lib/JSON_parser.c:263-308 | between tokens any mixture of white space and comments is accepted and changes nothing |
| JsonDoc.GapAfter | src/lib/JSON_parser.c:263-308 | after a value, delivered or not, it leaves the value as it was |
| JsonDoc.DenotesSame | src/lib/JSON_parser.c:589-602 | white space after a number in the buffer does not change what is delivered |
| JsonDoc.DocParsed | src/lib/JSON_parser.c:766-1087 | every text of an array or object within the depth allowed, with any white space and comments between its tokens and any spelling of its strings and numbers, is accepted whole and builds the tree it means, the first of equal keys counting |
| JsonTree.CStringExact | src/lib/json_object.cc:178-184 | a string is kept whole exactly if it has no NUL |
| JsonTree.CStringCuts | src/lib/json_object.cc:178-184 | and is otherwise cut at the first |
| JsonUnicode.LateBracket | src/lib/JSON_parser.c:967-982 | the text of an empty array and one more bracket pops the builder's empty stack |
| JsonUnicode.StackFits | src/lib/JSON_parser.c:364-400 | the mode stack stays within its room on all texts exactly for depths below 128 |
| JsonUnicode.Utf8Inverse | src/lib/JSON_parser.c:621-693 | the reference encoding can be read back and consists of bytes |
| JsonUnicode.EscapesFed | src/lib/JSON_parser.c:626-736 | any sequence of Unicode scalar values written as escapes of either case, with surrogate pairs, is delivered as its UTF-8 encoding |
| JsonUnicode.UnpairedRefusedIff | src/lib/JSON_parser.c:652-682 | a unit is refused if and only if it is a half of a surrogate pair without the other |
| JsonUnicode.NeverLonger | src/lib/JSON_parser.c:626-693 | which is never longer than the escapes |
| JsonRoundTrip.IntValue | src/lib/json_object.cc:126-129 | the decimal text of a 32-bit integer converts back to it |
| JsonRoundTrip.RoundTrip | src/lib/json_object.cc:89-224 | every array or dict of at most `depth` nested containers, without floats, with printable text, is accepted when printed, and the tree built is the one printed, in any iteration order of its dicts |
| JsonPlain.StringReadsBackIff | src/lib/json_object.cc:89-152 | an array with one string reads back when printed if and only if the string has no quote, no backslash and no byte below 0x20 |
| JsonPlain.CharKeeps | src/lib/json_object.cc:154-224 | once the outermost array has its first item, no accepted character takes that item away |
| JsonPlain.EscapedComesShort | src/lib/JSON_parser.c:695-757 | a text with an escape in it is never read as itself: what an escape becomes is shorter |
| JsonObject.ReserveFor | src/lib/JSON_parser.c:548-558 | the doubling loop makes the room asked for |
| JsonObject.ReadUnit | src/lib/JSON_parser.c:637-651 | the loop over four hex digits computes the unit, each digit below 16 |
| JsonObject.WriteUtf8 | src/lib/JSON_parser.c:684-689 | the loop over six bits at a time writes the bytes |
| JsonObject.Parse | src/lib/json_object.cc:27-44 | the constructor's loop feeds the text up to the first rejected character |
| JsonObject.GetString | src/lib/json_object.cc:89-152 | the recursion prints the tree |
| JsonObject.GetArray | src/lib/json_object.cc:98-111 | the loop over the items, dropping a last comma |
| JsonObject.GetDict | src/lib/json_object.cc:112-125 | the loop over the members, in iteration order |
| JsonObject.JsonParser.constructor | src/lib/JSON_parser.c:443-518 | a new parser is in its initial state and satisfies the invariant |
| JsonObject.JsonParser.AddChar | src/lib/JSON_parser.c:695-757 | the character goes into the buffer, replaces a backslash, or is rejected |
| JsonObject.JsonParser.DecodeUnicode | src/lib/JSON_parser.c:626-693 | the escape at the end of the buffer becomes UTF-8, a pending surrogate, or is rejected |
| JsonObject.JsonParser.Char | src/lib/JSON_parser.c:766-1087 | the method accepts and rejects as the specification does, keeps the invariant, meets every assertion on the way, and reports the empty pop exactly for a closing bracket after a complete text |
| Kernel.DeployedInv | src/builtin/deployer.cc:32-45 | deploying keeps each context in exactly one vector, the one for its state |
| Kernel.MovedInv | src/builtin/kernel.cc:440-466 | an install action, failing or not, keeps that, and that no context leaves NOT_INSTALLED before its dependencies are installed, and that only well-founded components are installed |
| Kernel.MovedWork | src/builtin/kernel.cc:440-466 | every action lessens the work left |
| Kernel.InstalledIffFounded | src/builtin/kernel.cc:423-482 | where nothing moves any more, a context is installed if and only if it is in the well-founded part of the dependency graph and no action on the way fails |
| Kernel.Kernel.ResolveName | src/builtin/kernel.cc:52-61 | a missing dependency is deployed, or throws exactly if nobody holds it |
| Kernel.Kernel.ResolveContext | src/builtin/kernel.cc:128-137 | says whether all dependencies are installed, else the first that is not is a context; throws only if resolution is stuck |
| Kernel.Kernel.ResolveVector | src/builtin/kernel.cc:468-482 | picks the contexts that may go on from a vector that may grow meanwhile, and the others are held up |
| Kernel.Kernel.ResolveState | src/builtin/kernel.cc:440-466 | either something moved and there is less to do, or all contexts of the state are held up |
| Kernel.Kernel.Resolve | src/builtin/kernel.cc:423-438 | terminates with nothing left that can move, or throws, leaving `installing` set; it throws if and only if it is stuck: the components it comes to, through dependencies whose predecessors are well-founded, include one whose next dependency nobody holds |
| Kernel.SettledIsNotStuck | src/builtin/kernel.cc:423-482 | a resolution that has come to rest was not stuck |
| Kernel.ClosedIsNotStuck | src/builtin/kernel.cc:52-61 | if every dependency is held by somebody, none gets stuck |
| Kernel.Kernel.Install | src/builtin/kernel.cc:353-421 | between resolutions, for a new component held by a deployer: leaves `installing` set exactly if the resolution is stuck, and otherwise succeeds exactly if the component is well-founded; while `installing` is set it only deploys |
| Kernel.MissingDependency | src/builtin/kernel.cc:353-438 | an input on which install returns normally and the component is not installed |
| Framing.WriteFullyIs | src/lib/async_io.cc:103-121 | what is written when there is an error and when there is none |
| Framing.WriteAll | src/lib/async_io.cc:103-121 | the loop computes it |
| Framing.SendIs | src/lib/openflow.cc:811-851 | a message is accepted, or refused before any of it is written, or lost with the stream |
| Framing.StepInv | src/lib/openflow.cc:811-910 | kept by every step of either end: received, partly received, under way and pending bytes make up the messages sent, in order |
| Framing.UniqueFraming | src/lib/openflow.cc:878-910 | messages whose length field tells their length can be told apart in a stream in one way only |
| Framing.ReceivedIsPrefix | src/lib/openflow.cc:811-910 | the messages received are a prefix of those accepted, byte for byte |
| Framing.EofOnBoundary | src/lib/openflow.cc:853-876 | a clean end of file is reported only when everything written has been received as whole messages |
| Framing.RunDelivers | src/lib/openflow.cc:811-910 | over every run, for all partial writes, read chunks, errors and interleavings |
| Framing.RecvStepIs | src/lib/openflow.cc:878-910 | the receiver of the two-ended system is do_recv_openflow on the chunks the stream delivers |
| FramingProgress.WritesWhatFits | src/lib/async_io.cc:103-121 | where every write takes something, all is written without error if and only if the writes take as much |
| FramingProgress.FlushesIff | src/lib/openflow.cc:811-830 | then the pending buffer is gone exactly if the writes take all of it |
| FramingProgress.AcceptsIff | src/lib/openflow.cc:832-851 | and a message is accepted exactly if what was pending before it goes out |
| FramingProgress.RecvExact | src/lib/openflow.cc:878-910 | a call in the middle of a message, cut anywhere, returns it if the chunks complete it and otherwise keeps what it has |
| FramingProgress.NothingRefused | src/lib/openflow.cc:811-910 | over every run without failures the receiver refuses nothing before the sender closes |
| FramingProgress.AllArrive | src/lib/openflow.cc:878-910 | once nothing is pending, as many reads as there are bytes under way deliver every message accepted, however the stream cuts them |
| FramingProgress.RunArrives | src/lib/openflow.cc:811-910 | so after any run without failures |
| FramingProgress.EndReported | src/lib/openflow.cc:853-876 | an end of file is reported as such between messages and as a protocol error within one |
| FramingProgress.FailureReported | src/lib/openflow.cc:853-876 | an error of the read that is due is passed on |
| Framing.StreamConnection.SendTxBuf | src/lib/openflow.cc:811-830 | writes the pending buffer as specified |
| Framing.StreamConnection.DoSendOpenflow | src/lib/openflow.cc:832-851 | sends as specified |
| Framing.StreamConnection.ReadHeader | src/lib/openflow.cc:853-876 | reads into the header in place |
| Framing.StreamConnection.DoRecvOpenflow | src/lib/openflow.cc:878-910 | receives as specified, header and body in place |
| Connection.AdvanceRises | src/lib/openflow.cc:64-170 | every transition of connect() rises in rank |
| Connection.ConnectIs | src/lib/openflow.cc:178-213 | connect() terminates, never falls in rank, returns 0 exactly if connected, and the stored error if disconnected |
| Connection.Negotiates | src/lib/openflow.cc:95-140 | exactly which hellos lead to a connection |
| Connection.ConnectsIff | src/lib/openflow.cc:64-213 | a call on a new connection succeeds if and only if the stream connects, the hello goes out and a good one comes back |
| Connection.HelloComesFirst | src/lib/openflow.cc:64-140 | over every run, no connection comes up without the hello having been sent |
| Connection.NextInv | src/lib/openflow.cc:65-348 | connected implies a version between the minimum and OFP_VERSION; disconnected implies a nonzero error |
| Connection.EndIsFinal | src/lib/openflow.cc:175-348 | over every run, a disconnected connection stays so with the same nonzero error |
| Connection.SilenceBeforeTheEnd | src/lib/openflow.cc:95-348 | with a monotone clock, an unanswered probe disconnects only after twice the probe interval without a message, counted from the last message received, the hello included |
| Connection.LastHeard | src/lib/openflow.cc:95-348 | a connection that is up has such a last message |
| Connection.SilenceEndsIt | src/lib/openflow.cc:271-308 | and a probe unanswered for the interval does disconnect, with EPROTO |
| Connection.OpenflowConnection.TryConnect | src/lib/openflow.cc:178-213 | the loop of connect() |
| Connection.OpenflowConnection.SRecvHello | src/lib/openflow.cc:95-140 | exactly which replies connect, wait or end; the version is then OFP_VERSION, the error nonzero, and the probe a full interval away |
| Connection.OpenflowConnection.RecvOpenflow | src/lib/openflow.cc:321-348 | receiving puts the probe off |
| Connection.OpenflowConnection.RunProbe | src/lib/openflow.cc:271-308 | the prober acts only after the timeout, ends an idle connection with EPROTO, keeps the invariant, and keeps the connection patient for the intervals due since the last message |
| Netlink.ParseExact | src/lib/netlink.cc:855-918 | parse succeeds exactly on the layouts of attribute sequences that meet all length, terminator and required-type rules, and binds each policy type to its last payload |
| Netlink.BindsLast | src/lib/netlink.cc:855-918 | the payload bound to a type is that of its last attribute |
| Netlink.RoundTrip | src/lib/netlink.cc:659-688 | composed attributes of at most 65531 bytes that suit the policy, the required types among them, parse back, payload intact |
| Netlink.TooLongIsRefused | src/lib/netlink.cc:677-688 | one longer attribute makes the message unreadable under any policy |
| Netlink.ComposedParsesIff | src/lib/netlink.cc:659-688 | exactly which composed messages parse: of at most 65531 bytes each, all within the policy, with every required type |
| Netlink.NlMessage.Put | src/lib/netlink.cc:659-665 | the content follows what was there, then fewer than four zero bytes; an aligned message stays aligned; the length field follows |
| Netlink.NlMessage.PutUnspec | src/lib/netlink.cc:677-688 | appends the attribute, or throws exactly above 65535 bytes |
| Netlink.NlPolicy.constructor | src/lib/netlink.cc:836-852 | one element for each type and a count of the required ones |
| Netlink.NlPolicy.ParseBuffer | src/lib/netlink.cc:855-918 | the loop that counts down required types accepts exactly what Parse does |

## Left out

- GUI, logging, fault handling, leak checking, pcap and packet generation, sockets, SSL, the clock, hashing: user interface, input and output, and platform.
- The cooperative thread library: its effects are the steps of the poll loop, assuming that a pre-block hook runs at most once in a poll() and only when the thread gives up the processor.
- The wait() pass of the poll loop (src/lib/poll-loop.cc:142-150): it visits nodes with the same references as a pass of polls; pollables are taken not to add, remove or block in it.
- Cnode trees are values with explicit addresses: `prev` pointers and updates in place of links are not modelled; sharing is ruled out by counting how often an address is linked, and back pointers from rules are modelled as a map to addresses.
- Unsigned overflow in the split arithmetic for more than a billion rules in one node, and `Packet_expr::set_field`, which only stores values.
- `Stable_list`, `Bitmap`, `Cfg`, the `auto_*` wrappers, the OFMP extensions and the management handshake in nox.cc, the packet and event structures: easier members.
- Results.Push: the vector entries beyond the current number of lists, which the source overwrites, are not part of what it states.
- ConnLife.ActInv: of the maps in nox.cc only `connection_map` is modelled; `mgmt_map`, `swm_map` and the events posted on close are not.
- JsonDoc.DocParsed: says which texts are accepted, not that no others are; what is accepted is bounded by the invariants of TextSafe and TextTokens.
- PollProgress.PassPollsAll: about a pass whose polls do not block; where one blocks, HandsOver and RoundRobin say who is next.
- JsonTree.Cb: a container goes into its parent when it is closed and not when it is opened; nothing is added to the parent in between, so the trees are the same. On a rejected text the builder's tree is not described.
- JsonParser: error codes, the configuration without comments, a callback that refuses, failing allocations, and stacks of unlimited depth are not modelled. Floating-point tokens are kept as text, with a point as decimal point.
- JsonObject.WriteUtf8: shifts and the or of disjoint bits are written as division and addition.
- JsonRoundTrip.RoundTrip: does not cover floats, whose text depends on the printing precision. That text which is not plain breaks the round trip is proved for a string in an array, not for one deeper in a tree.
- JsonObject.JsonParser.Char: the state after a rejection, and after the builder pops its empty stack, is not described.
- ClassifierRuns: a run goes on only where the code has defined behaviour: a lost rule whose pointer dangles is neither deleted nor changed (`Enabled`).
- ClassifierObject.Classifier.Query: where earlier lookups threw, requires that the nodes they left are still in the tree; after a build, unbuild or clean that freed them the source reads freed memory. So does GetRules.
- ClassifierObject.Classifier.DeleteRules: also requires that no matching rule is below such a node, since otherwise the source goes on from a list entry that it has erased.
- ClassifierObject.Classifier.GetRules: that a push onto `to_traverse` allocates only when the vector is full is not modelled; any push may throw.
- Kernel: install actions do nothing to the kernel but reach their state or ERROR; deployers are one pool; `required_state` is left out because nothing reads it; every per-state vector exists from the start.
- Kernel.Kernel.Install: the error texts are not modelled.
- Framing: messages are sent with a length field that tells their length; EINTR is handled below the modelled reads and writes.
- Connection: do_connect never returns EINPROGRESS, as the source asserts; blocking calls are repetitions of the modelled ones; the texts of error messages are not modelled.
- Netlink: numbers in host byte order are little endian; attribute getters, and the message headers apart from the length, are not modelled.
