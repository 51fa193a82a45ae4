# Models of the Alterator manager's cores

Dafny models of five parts of the Alterator manager and its command line client, with proofs of what
they keep and compute:

- **The component and category forest** of `alteratorctl` (`ParentLinks`, `Statuses`, `Forest`,
  `SectionLinks`, `SectionBuild`, `NodeTrees`, `TreePasses`, `SectionPass`, `SectionList`,
  `SectionMeaning`): each printed section tears the links of one shared forest down, relinks it from the tables, prunes
  empty categories upwards, gathers the rest under a root, propagates installation statuses and
  filters by them while traversing. Tables are walked in an arbitrary order. No theorem assumes
  the tables to be acyclic: a cycle of categories is simply not part of any section.
- **Affected components** (`Affected`): which components a package transaction touches.
- **The backend3 module's output** (`Characters`, `BackendAnswer`, `BackendScanner`,
  `BackendParser`, `BackendRoundTrip`, `BackendCall`): the chunked scanner that decides when an
  answer is complete, the parser that turns it into dictionaries, and their agreement on every
  encoded answer, however it is cut.
- **The executor module** (`ExecutorWorker`, `ExecutorRuns`, `ExecutorThreads`, `NulCodec`,
  `ReplyBuilder`, `ReplyLists`, `ExecutorReply`, `ReplyMeaning`, `ExecutorAnswer`, `CommandTemplate`,
  `CommandLine`): the event-driven worker, the dispatcher and its workers as a transition system
  with arbitrary interleaving, the reply and the signature published for it, and the command
  template.
- **Columns and agent messages** (`Columns`, `PrintedColumns`, `JsonText`, `JsonMessages`, `JsonAgent`,
  `JsonUsers`):
  the column layout of the terminal output, and the hand-written reader of the remote agent's JSON
  lines against the templates that print them.

`Options`, `Lists` and `Splitting` are shared. Callbacks that change state are methods of classes
proved against functions on values; what holds over whole runs is proved about these functions, and
what they mean is stated without them, on names, lines, elements and events.
`dafny verify dfyconfig.toml` checks everything.

## Where the code and its documentation differ

- The English page on backend3 gives methods one dictionary as their result
  (`subprojects/alterator-manager/docs/modules/backend3.md:42`); the code and the model build an array
  of dictionaries (`subprojects/alterator-module-backend3/backend3.c:115-170`).
- A category whose parent name is the empty string is top-level for the linker and skipped when the
  root's children are gathered (`subprojects/alteratorctl/alteratorctlcomponentsmodule.c:751`); see
  `SectionList.EmptyParentHidden`.
- The error for an architecture that is both allowed and excluded is raised when it is excluded and
  not allowed, and when it is excluded twice
  (`subprojects/alteratorctl/alteratorctlcomponentsmodule.c:2828-2844`); `Affected.IsIgnoredByArch`
  has the code's condition.
- The byte limit of the executor holds only with headroom below the 32-bit maximum;
  `ExecutorRuns.ByteLimitExact` has the exact condition.
- The executor's busy flag can miss a thread that is started but not counted;
  `ExecutorThreads.BusyExact` has the exact condition.
- The column search ignores the two-space indent and counts the spaces around empty columns;
  `Columns.LinesFitExactly` has the exact condition for all tables.
- The JSON reader looks for quoted words anywhere in a line, so a value that is a key word, or ends
  in one behind a quote, can be taken for the key; and it stops at a bare quote, which the printer
  escapes in some messages only. `JsonAgent.OneValueReadBack` and `JsonUsers.SelectUserReadBack` have
  the exact conditions for all values, and `JsonAgent.MissingFieldCut` a message that never comes back
  (`subprojects/remote-polkit-agent/polkitagentremotelistener.c:408-409`).

## Model

| member | source | states |
|---|---|---|
| ParentLinks.TreeMembers | subprojects/alteratorctl/alteratorctlcomponentsmodule.c:682-753 | for any parent links, cycles or not, the tree left under a section root holds exactly the nodes whose chain ends in a top-level category and that are, or have below them, a component of the section; each keeps its wanted parent |
| ParentLinks.LeafBelow | subprojects/alteratorctl/alteratorctlcomponentsmodule.c:3981-4028 | every node left in the tree has a component of the section at or below it |
| ParentLinks.DepthBound | subprojects/alteratorctl/alteratorctlcomponentsmodule.c:3981-4028 | a node that reaches a root does so in fewer steps than the forest has nodes, even when other nodes form a cycle |
| Statuses.JoinIsUnion | subprojects/alteratorctl/alteratorctlcomponentsmodule.c:3489-3520 | joining a child's status into its parent is the union law of the status lattice, so neither order nor repetition matters |
| Forest.NodeForest.Unlink | subprojects/alteratorctl/alteratorctlcomponentsmodule.c:4030-4041 | unlinking a node removes it from its parent's children and leaves a consistent forest |
| Forest.NodeForest.Append | subprojects/alteratorctl/alteratorctlcomponentsmodule.c:740-753 | hanging a root under a node puts it behind the children already there and leaves a consistent forest |
| Forest.WithoutNode | subprojects/alteratorctl/alteratorctlcomponentsmodule.c:4030-4041 | the child lists without a node fit the parent links without it |
| SectionLinks.DeleteLinks | subprojects/alteratorctl/alteratorctlcomponentsmodule.c:4030-4041 | deleting the links of a node cuts exactly the links from and to it |
| SectionLinks.DeleteTable | subprojects/alteratorctl/alteratorctlcomponentsmodule.c:682-694 | whatever the order of the table, exactly the links from and to its nodes are cut |
| SectionLinks.CreateCategoryLink | subprojects/alteratorctl/alteratorctlcomponentsmodule.c:3953-3979 | a category is hung under the category it names, if that exists and its name is not empty |
| SectionLinks.RestoreCategoryLinks | subprojects/alteratorctl/alteratorctlcomponentsmodule.c:3953-3979 | after the pass, in any order, the forest holds exactly the category links of the table |
| SectionLinks.PruneStep | subprojects/alteratorctl/alteratorctlcomponentsmodule.c:3981-4028 | taking out an empty category leaves at most its parent to be looked at; every other link is a wanted one |
| SectionLinks.LinkCountDrops | subprojects/alteratorctl/alteratorctlcomponentsmodule.c:3981-4028 | each step of the upward walk removes a link, so the walk ends on any table |
| SectionLinks.PruneUp | subprojects/alteratorctl/alteratorctlcomponentsmodule.c:3981-4028 | the upward walk ends and leaves no empty category linked that was not still to be visited |
| SectionLinks.LinkComponent | subprojects/alteratorctl/alteratorctlcomponentsmodule.c:3981-4028 | a component is moved under its category if it is in the section and its category exists, and otherwise left alone |
| SectionLinks.LinkOrPruneCategory | subprojects/alteratorctl/alteratorctlcomponentsmodule.c:3981-4028 | visiting a category prunes it and its emptied ancestors, or moves it within its parent; the pruning state is kept |
| SectionLinks.LinkComponents | subprojects/alteratorctl/alteratorctlcomponentsmodule.c:696-739 | after the pass over the components exactly the wanted links of the section are there |
| SectionLinks.PruneCategories | subprojects/alteratorctl/alteratorctlcomponentsmodule.c:696-739 | after the pass over the categories, in any order, a category is linked if and only if something hangs under it |
| SectionLinks.HangTop | subprojects/alteratorctl/alteratorctlcomponentsmodule.c:740-753 | a category without a parent name is put under the section root exactly when it has children |
| SectionLinks.GatherTops | subprojects/alteratorctl/alteratorctlcomponentsmodule.c:740-753 | after the pass exactly the top-level categories with content hang under the section root |
| SectionBuild.ResetCategoryStatuses | subprojects/alteratorctl/alteratorctlcomponentsmodule.c:4043-4054 | categories lose their statuses, components keep theirs |
| SectionBuild.TearDown | subprojects/alteratorctl/alteratorctlcomponentsmodule.c:682-694 | no link survives deleting those of components and categories, whatever earlier sections had left |
| SectionBuild.Rebuild | subprojects/alteratorctl/alteratorctlcomponentsmodule.c:682-753 | teardown, restoring, linking, pruning and gathering give the section tree |
| SectionBuild.BuildSection | subprojects/alteratorctl/alteratorctlcomponentsmodule.c:682-753 | from any forest an earlier section can leave, the section tree is the one the tables and the section alone describe |
| SectionBuild.PrunedAtLast | subprojects/alteratorctl/alteratorctlcomponentsmodule.c:696-753 | linking, pruning and gathering establish what the membership theorem asks for |
| SectionBuild.SectionTreeReached | subprojects/alteratorctl/alteratorctlcomponentsmodule.c:682-753 | the membership theorem read on the tables: the tree is the section, each node at its place |
| SectionBuild.MemberAgree | subprojects/alteratorctl/alteratorctlcomponentsmodule.c:682-753 | membership depends on the tables alone and not on the other nodes a forest holds |
| NodeTrees.ValueSums | subprojects/alteratorctl/alteratorctlcomponentsmodule.c:3489-3520 | the value a post-order visit gives a category is the summary of all statuses below it, for any order of children |
| NodeTrees.SecondValue | subprojects/alteratorctl/alteratorctlcomponentsmodule.c:3489-3520 | statuses that are settled stay as they are when visited again |
| NodeTrees.UnfoldMirrors | subprojects/alteratorctl/alteratorctlcomponentsmodule.c:3439-3454 | below a root, following children for as many levels as there are nodes gives a finite tree that mirrors the forest |
| NodeTrees.MirrorsProper | subprojects/alteratorctl/alteratorctlcomponentsmodule.c:3439-3454 | no node occurs twice in the tree below a root |
| TreePasses.UpdateParent | subprojects/alteratorctl/alteratorctlcomponentsmodule.c:3489-3520 | the callback joins the node's status into its parent, unless that is the section root |
| TreePasses.UpdatePostOrder | subprojects/alteratorctl/alteratorctlcomponentsmodule.c:3439-3454 | the in-place traversal settles every node of a subtree and changes no status outside it but the parent's |
| TreePasses.FilterNode | subprojects/alteratorctl/alteratorctlcomponentsmodule.c:3522-3548 | the callback unlinks a node whose status is unwanted or missing, after its children have been dealt with |
| TreePasses.FilterKids | subprojects/alteratorctl/alteratorctlcomponentsmodule.c:3456-3487 | the children are visited one by one, the next one looked up before the present one may be unlinked, and all of them are visited |
| TreePasses.FilterPostOrder | subprojects/alteratorctl/alteratorctlcomponentsmodule.c:3456-3487 | unlinking while traversing visits every node and cuts exactly those with an unwanted status |
| SectionPass.RootTree | subprojects/alteratorctl/alteratorctlcomponentsmodule.c:3439-3454 | the nodes below a section root form a finite tree without repetition, as both traversals need |
| SectionPass.UpdateStatuses | subprojects/alteratorctl/alteratorctlcomponentsmodule.c:3439-3454 | after the pass every node under the root carries the summary of the statuses at and below it; nothing else has changed |
| SectionPass.SecondPassIdle | subprojects/alteratorctl/alteratorctlcomponentsmodule.c:3489-3520 | a second pass changes nothing |
| SectionPass.FilterSection | subprojects/alteratorctl/alteratorctlcomponentsmodule.c:3456-3487 | the filter cuts exactly the nodes under the root whose status is unwanted or missing |
| SectionPass.FilterExact | subprojects/alteratorctl/alteratorctlcomponentsmodule.c:3456-3487 | a node stays under the root if and only if a component of the wanted status is the node or hangs below it |
| SectionList.FilteredIsSection | subprojects/alteratorctl/alteratorctlcomponentsmodule.c:3456-3487 | a filtered section is the section built from the components of the wanted status alone |
| SectionList.FilteredPlace | subprojects/alteratorctl/alteratorctlcomponentsmodule.c:3522-3548 | what a filter leaves hangs where it hung |
| SectionList.ShowSection | subprojects/alteratorctl/alteratorctlcomponentsmodule.c:666-784 | from whatever earlier sections left, a section shows the chosen components with their categories, each at the place the tables give it, and each category with the summary of the section's components below it |
| SectionList.ShowSections | subprojects/alteratorctl/alteratorctlcomponentsmodule.c:1045-1059 | any sequence of sections, filtered or not, shows the nodes, places and statuses that the tables, each section and the statuses at the start give, so what each would show alone |
| SectionList.EmptyParentHidden | subprojects/alteratorctl/alteratorctlcomponentsmodule.c:740-753 | a category whose parent name is the empty string is linked as top-level but never gathered, so nothing below it is shown |
| SectionMeaning.CategoryUp | subprojects/alteratorctl/alteratorctlcomponentsmodule.c:3953-3979 | the link a category asks for, in terms of names: the category it names, unless that name is empty or unknown |
| SectionMeaning.ComponentUp | subprojects/alteratorctl/alteratorctlcomponentsmodule.c:4003-4027 | the link a component of the section asks for, in terms of names |
| SectionMeaning.ComponentShown | subprojects/alteratorctl/alteratorctlcomponentsmodule.c:682-753 | a component is in a section if and only if it is of the section and there is a chain of non-empty category names from the one it names to one without a parent |
| SectionMeaning.CategoryShown | subprojects/alteratorctl/alteratorctlcomponentsmodule.c:682-753 | a category is in a section if and only if the chain of a component of the section runs through it |
| SectionMeaning.RootNotShown | subprojects/alteratorctl/alteratorctlcomponentsmodule.c:682-753 | nothing but components and categories is in a section |
| SectionMeaning.PlaceOnChain | subprojects/alteratorctl/alteratorctlcomponentsmodule.c:740-753 | a component hangs under the category it names, a category under the next one of the chain, and the last one under the root |
| SectionMeaning.CategoryStatus | subprojects/alteratorctl/alteratorctlcomponentsmodule.c:3489-3520 | a category is partially installed if components of both statuses have chains through it, and otherwise has the status of those that do |
| SectionMeaning.ComponentStatus | subprojects/alteratorctl/alteratorctlcomponentsmodule.c:3489-3520 | a component keeps its own status |
| SectionMeaning.PictureOfComponent | subprojects/alteratorctl/alteratorctlcomponentsmodule.c:1045-1059 | a component is shown in a section if and only if it is asked for and has a chain, under the category it names and with its status |
| SectionMeaning.PictureOfCategory | subprojects/alteratorctl/alteratorctlcomponentsmodule.c:1045-1059 | a category is shown if and only if the chain of a component that is asked for runs through it, under the next one of that chain or the root |
| Affected.IsIgnoredByArch | subprojects/alteratorctl/alteratorctlcomponentsmodule.c:2793-2852 | a package is ignored for its architecture when a given list lacks the current one or the excluded list has it; the lookup fails exactly on contradictory or repeated exclusions |
| Affected.IsIgnoredByLanguage | subprojects/alteratorctl/alteratorctlcomponentsmodule.c:2854-2885 | a package with a language is ignored when no locale has it |
| Affected.IsIgnoredByDesktop | subprojects/alteratorctl/alteratorctlcomponentsmodule.c:2887-2931 | a package with desktops is ignored when none of them is found on the system |
| Affected.RelevantExact | subprojects/alteratorctl/alteratorctlcomponentsmodule.c:2793-2931 | a package counts exactly when its architecture lists, its language and its desktops all allow it |
| Affected.GetStatus | subprojects/alteratorctl/alteratorctlcomponentsmodule.c:4360-4419 | the status of a component by the set of uninstalled packages: one missing relevant package, or none relevant, makes it not installed; and whether it was settled before a broken package |
| Affected.StatusExact | subprojects/alteratorctl/alteratorctlcomponentsmodule.c:4360-4419 | without broken packages: installed when some package counts and none of those is missing, none without packages, and otherwise not installed |
| Affected.BrokenStatusExact | subprojects/alteratorctl/alteratorctlcomponentsmodule.c:4360-4419 | a broken package hides itself and all behind it, unless a missing one before it settles the status |
| Affected.AddPackages | subprojects/alteratorctl/alteratorctlcomponentsmodule.c:5418-5531 | the index gains exactly the relevant packages of a component, or the step fails on a broken one |
| Affected.MakeIndex | subprojects/alteratorctl/alteratorctlcomponentsmodule.c:5418-5531 | the index says of each package exactly which components in question carry it; it fails exactly when one of them cannot be read |
| Affected.CalculateAffected | subprojects/alteratorctl/alteratorctlcomponentsmodule.c:5418-5531 | the affected components are exactly those in question that carry a requested package, and the error cases are exactly the empty inputs and unreadable components |
| Affected.IndexAnswers | subprojects/alteratorctl/alteratorctlcomponentsmodule.c:5418-5531 | the index gives the same answer as asking each component directly |
| Affected.RemoveIsExact | subprojects/alteratorctl/alteratorctlcomponentsmodule.c:5418-5531 | for a removal, affected means exactly: not a draft, and taken from installed to not installed |
| Affected.InstallTouches | subprojects/alteratorctl/alteratorctlcomponentsmodule.c:5418-5531 | an installation touches exactly the components that are no draft, are not installed and have a requested package that counts |
| Affected.InstallCovers | subprojects/alteratorctl/alteratorctlcomponentsmodule.c:5418-5531 | for an installation, a component is completed if and only if it is affected and no other relevant package of it is missing |
| Affected.InstallOverstates | subprojects/alteratorctl/alteratorctlcomponentsmodule.c:5418-5531 | an installation can affect a component without completing it |
| BackendScanner.FramingExact | subprojects/alterator-module-backend3/backend3.c:281-347 | on every encoded answer, in any layout, the done flag is set by its last bracket and by nothing before it, whatever brackets and escaped quotes values hold |
| BackendScanner.BeforeIsPlain | subprojects/alterator-module-backend3/backend3.c:281-347 | the character in front of a buffer makes no difference unless it is a backslash |
| BackendScanner.BeforeMatters | subprojects/alterator-module-backend3/backend3.c:281-347 | a backslash in front of a buffer changes the flags after the whole buffer exactly when the buffer starts with a quote the scan would act on, unless both scans run into the same bracket error |
| BackendScanner.QuotesApart | subprojects/alterator-module-backend3/backend3.c:281-347 | two scans that disagree about being in quotes disagree to the end of the buffer, until one meets a bracket error |
| BackendScanner.BracketStep | subprojects/alterator-module-backend3/backend3.c:313-345 | outside of quotes brackets count up to two and down; leaving the last one ends the answer, and one too many is an error that ends it too |
| BackendScanner.QuotedStep | subprojects/alterator-module-backend3/backend3.c:289-311 | inside of quotes nothing counts but the unescaped quote that closes them |
| BackendScanner.RunParts | subprojects/alterator-module-backend3/backend3.c:281-347 | scanning a text is scanning its parts in turn |
| BackendScanner.ChunksAreWhole | subprojects/alterator-module-backend3/backend3.c:281-347 | scanning a text cut at any of its bracket line ends is scanning it whole |
| BackendParser.ReadPair | subprojects/alterator-module-backend3/backend3.c:40-113 | reads one key and its value, strictly advancing and never past the NUL, for any text; what is missing reads as empty |
| BackendParser.PairAt | subprojects/alterator-module-backend3/backend3.c:40-113 | reading a pair always moves forward and stays within the text |
| BackendParser.KeyAlone | subprojects/alterator-module-backend3/backend3.c:52-65 | a key with nothing behind it has an empty value |
| BackendParser.ValueMissing | subprojects/alterator-module-backend3/backend3.c:67-89 | a key with something else than a quote behind it has an empty value, and reading goes on there |
| BackendParser.ValueUnclosed | subprojects/alterator-module-backend3/backend3.c:91-100 | a value that is never closed reads as empty, and reading stops at the end |
| BackendParser.Builder.Open | subprojects/alterator-module-backend3/backend3.c:115-170 | a dictionary is opened only when none is open |
| BackendParser.Builder.Close | subprojects/alterator-module-backend3/backend3.c:115-170 | closing adds the open dictionary to the array |
| BackendParser.AddData | subprojects/alterator-module-backend3/backend3.c:115-170 | for every text the parser ends, never opens a dictionary inside another, and closes all it opened |
| BackendParser.FirstBracket | subprojects/alterator-module-backend3/backend3.c:122-129 | all up to the first bracket is passed over; without one there are no dictionaries |
| BackendParser.StrayPassed | subprojects/alterator-module-backend3/backend3.c:135-161 | what opens, closes or starts nothing is passed over |
| BackendParser.UnclosedKept | subprojects/alterator-module-backend3/backend3.c:163-169 | a dictionary that is never closed ends with the text |
| BackendRoundTrip.PairReadBack | subprojects/alterator-module-backend3/backend3.c:40-113 | an encoded pair is read back whole, up to its closing quote, escapes kept, whatever spaces are around its value |
| BackendRoundTrip.ItemsReadBack | subprojects/alterator-module-backend3/backend3.c:115-170 | encoded records are read back in order, from any state between records |
| BackendRoundTrip.ParserUndoesEncoder | subprojects/alterator-module-backend3/backend3.c:115-170 | parsing an encoded answer gives exactly its records, a pair outside of a group as a dictionary of its own |
| BackendCall.MethodData.CheckStdoutChars | subprojects/alterator-module-backend3/backend3.c:281-347 | the flags after a buffer are those of the scan; a bracket error ends the scan of the buffer |
| BackendCall.MethodData.OnChildStdout | subprojects/alterator-module-backend3/backend3.c:402-415 | a line is appended and scanned, and answered with the parsed output when it completes it |
| BackendCall.AnsweredOnce | subprojects/alterator-module-backend3/backend3.c:402-415 | however an answer is cut into lines, only its last line is answered, once, with exactly the encoded records |
| ExecutorWorker.GInt | subprojects/alterator-module-executor/executor.c:677 | a counter stays in 32 bits and is exact while the sum fits |
| ExecutorWorker.ChildData.ReturnValueAndFree | subprojects/alterator-module-executor/executor.c:543-570 | answers with the stdout status, else the stderr status, else the exit status, and gives the counters back once |
| ExecutorWorker.ChildData.OnChildExited | subprojects/alterator-module-executor/executor.c:600-638 | records the exit, and answers if both streams are done |
| ExecutorWorker.ChildData.OnChildStdout | subprojects/alterator-module-executor/executor.c:640-793 | one read in the mode the flags select, its limit, the end of the stream, and the answer if it was the last thing awaited |
| ExecutorWorker.ChildData.OnChildStderr | subprojects/alterator-module-executor/executor.c:795-895 | the same for a line of stderr |
| ExecutorWorker.TakeBytes | subprojects/alterator-module-executor/executor.c:660-697 | bytes are counted first and kept only while the limit has not been passed |
| ExecutorWorker.TakeLine | subprojects/alterator-module-executor/executor.c:702-763 | a line is counted first and signalled and kept, without its line feed, only while the limit has not been passed |
| ExecutorRuns.StepKeepsAttached | subprojects/alterator-module-executor/executor.c:600-895 | a source is attached if and only if its done flag is not set, and the answer is given with the last of the flags |
| ExecutorRuns.AnsweredOnceDone | subprojects/alterator-module-executor/executor.c:600-895 | in whatever order exit, stdout and stderr arrive, a call is answered once, exactly when everything is done, and by then no source is left |
| ExecutorRuns.ExitRecorded | subprojects/alterator-module-executor/executor.c:600-622 | in every run the exit status is the code the process ended with, and 0 until it has ended |
| ExecutorRuns.AnsweredWith | subprojects/alterator-module-executor/executor.c:543-553 | a finished call is answered with the status of stdout if that is not zero, else that of stderr, else the code its process ended with |
| ExecutorRuns.AlwaysCaptured | subprojects/alterator-module-executor/executor.c:640-895 | in every run without channel errors the buffers hold what was read, in order, but for the read that passed the limit |
| ExecutorRuns.NothingDropped | subprojects/alterator-module-executor/executor.c:640-895 | what is kept is a prefix of what was read; status 0 means all of it, up to the end of every wanted stream |
| ExecutorRuns.OutBounded | subprojects/alterator-module-executor/executor.c:677-763 | with room for one more read below the 32-bit maximum, the stdout counter is exact and what is kept is within the limit |
| ExecutorRuns.ErrBounded | subprojects/alterator-module-executor/executor.c:825-866 | the same for stderr |
| ExecutorRuns.AnsweredExactly | subprojects/alterator-module-executor/executor.c:543-553 | with headroom: 2 if more was written to stdout than its limit, else 3 if more was written to stderr than its limit, else the exit code |
| ExecutorRuns.StdoutEnds | subprojects/alterator-module-executor/executor.c:640-793 | a stdout stream ends exactly at an error condition, the end of the channel, a failed read or its limit |
| ExecutorRuns.StderrEnds | subprojects/alterator-module-executor/executor.c:795-895 | the same for stderr |
| ExecutorRuns.LineTextExact | subprojects/alterator-module-executor/executor.c:724-726 | a line is kept without its line feed and up to a NUL, and otherwise as it is |
| ExecutorRuns.TextsOfLines | subprojects/alterator-module-executor/executor.c:722-763 | lines with their line feeds, whether or not the last one has it, are kept as their texts, in order |
| ExecutorRuns.ByteLimitExact | subprojects/alterator-module-executor/executor.c:677-697 | captured bytes stay within the limit in every run if and only if the limit leaves room for one more chunk below the 32-bit maximum |
| ExecutorThreads.LiveStep | subprojects/alterator-module-executor/executor.c:1457-1482 | a step starts one thread of its interface, method and module, ends one, or leaves their number alone |
| ExecutorThreads.AdmittedHasRoom | subprojects/alterator-module-executor/executor.c:1457-1474 | a call that passed the limit check still has room when its thread starts, since only workers act in between |
| ExecutorThreads.StepKeepsInv | subprojects/alterator-module-executor/executor.c:1457-1482 | every step of the dispatcher or of any worker keeps: counters are live threads minus the one not yet counted, limits hold, answers and releases match each thread's phase |
| ExecutorThreads.AlwaysInv | subprojects/alterator-module-executor/executor.c:1457-1482 | the invariant holds in every interleaving of one dispatcher and any number of workers |
| ExecutorThreads.LimitsHold | subprojects/alterator-module-executor/executor.c:1151-1167 | there are never more live threads than the limit of their interface or method, and none if it is not above zero |
| ExecutorThreads.BusyExact | subprojects/alterator-module-executor/executor.c:2303-2316 | the module is busy if and only if more threads are live than the one not yet counted, so outside that window if and only if one is live |
| ExecutorThreads.LimitMeans | subprojects/alterator-module-executor/executor.c:1151-1167 | in every state a run can reach while the dispatcher looks at a call, reaching the limit means that many live threads |
| ExecutorThreads.BusyCanMiss | subprojects/alterator-module-executor/executor.c:1474-1482 | between start and count a thread can be live while the module counter is zero |
| ExecutorThreads.CounterCanGoBelow | subprojects/alterator-module-executor/executor.c:966-993 | a worker that ends before it is counted takes the counters below zero |
| ExecutorThreads.NeverTwice | subprojects/alterator-module-executor/executor.c:966-1039 | at any time a call has at most one answer and at most one release, and no release before its answer |
| ExecutorThreads.AnsweredOnceQuiet | subprojects/alterator-module-executor/executor.c:948-1110 | once all threads are gone, every call that came in has been answered exactly once on every path, has released its counters exactly once if it got a thread and never otherwise, and all counters are zero |
| ExecutorThreads.NeverStuck | subprojects/alterator-module-executor/executor.c:948-1110 | until then something besides a new call can always happen |
| ExecutorThreads.Counters.IsThreadLimitReached | subprojects/alterator-module-executor/executor.c:1151-1167 | asked while the dispatcher looks at a call: true exactly when its interface or its method has at least as many live threads as its limit, which is what decides between the two steps |
| ExecutorThreads.Counters.CountUp | subprojects/alterator-module-executor/executor.c:1476-1482 | one more thread in the counters of the interface, the method and the module, and in no others |
| ExecutorThreads.Counters.Release | subprojects/alterator-module-executor/executor.c:556-560 | one less, in the same three |
| ExecutorThreads.Counters.IsModuleBusy | subprojects/alterator-module-executor/executor.c:2303-2316 | true exactly when more threads are live than the one started and not yet counted, so between calls exactly when some thread is live |
| NulCodec.DecodeUndoesEncode | subprojects/alterator-module-executor/executor.c:350-372 | reading a buffer of byte arrays, each ended by a NUL, gives the arrays back, empty ones included |
| NulCodec.EncodeUndoesDecode | subprojects/alterator-module-executor/executor.c:350-372 | writing what was read gives the buffer back, with the NUL at its end if it lacked one |
| NulCodec.DecodeExact | subprojects/alterator-module-executor/executor.c:350-372 | a buffer is read as the one list of NUL-free arrays whose encoding it is, but for the NUL it may lack |
| ReplyLists.AddByteArrays | subprojects/alterator-module-executor/executor.c:350-372 | the byte array loop puts exactly the decoded arrays into the reply and leaves no list open, for every buffer |
| ReplyLists.AddStringArray | subprojects/alterator-module-executor/executor.c:300-308 | the string pointer loop puts exactly the decoded entries that are not empty into the reply, for every buffer |
| ReplyLists.AddStrings | subprojects/alterator-module-executor/executor.c:316-318 | a list of strings goes into the reply in order, as one array |
| ReplyLists.AddBytes | subprojects/alterator-module-executor/executor.c:420-424 | bytes go into the reply as one byte array |
| ReplyBuilder.Builder.Close | subprojects/alterator-module-executor/executor.c:359-372 | closing puts a well-typed list into what encloses it |
| ReplyBuilder.Builder.End | subprojects/alterator-module-executor/executor.c:505-506 | a tuple is finished only with all lists closed and fields of exactly the declared types |
| ExecutorReply.AddOutput | subprojects/alterator-module-executor/executor.c:181-216 | a name gets its string, or its array of strings for a name with brackets; what is missing or of another kind is an empty string |
| ExecutorReply.MakeTypeString | subprojects/alterator-module-executor/executor.c:108-141 | the type string of a JSON reply is the concatenation of the types of its names, of stderr and of the status |
| ExecutorReply.ClimbLadder | subprojects/alterator-module-executor/executor.c:242-497 | each branch declares the published types, reads the buffers of its flags in order and fills the builder to match, or fails exactly when JSON is wanted and cannot be parsed |
| ExecutorReply.InvocationReturnValue | subprojects/alterator-module-executor/executor.c:223-508 | the reply is composed of the stdout part by priority, the stderr part and the status, each in the order read; an error for a status that is not enabled or unparsable JSON |
| ReplyMeaning.TextCarried | subprojects/alterator-module-executor/executor.c:143-160 | for JSON outputs, a text under a plain name is carried as it is |
| ReplyMeaning.NoTextCarried | subprojects/alterator-module-executor/executor.c:207-214 | what is missing under a plain name or is no text is carried as an empty one |
| ReplyMeaning.ArrayCarried | subprojects/alterator-module-executor/executor.c:185-198 | an array under a name with brackets is carried element by element in order, what is no text as an empty one |
| ReplyMeaning.NoArrayCarried | subprojects/alterator-module-executor/executor.c:200-204 | what is missing under a name with brackets or is no array is carried as one empty text |
| ReplyMeaning.FieldsCarried | subprojects/alterator-module-executor/executor.c:242-503 | element by element: the output by the first mode enabled, then the lines of stderr, then the status |
| ReplyMeaning.ErrorsExact | subprojects/alterator-module-executor/executor.c:229-260 | the reply is an error exactly when the status may not be returned, or JSON is wanted and cannot be parsed |
| ReplyMeaning.StringArrayReadBack | subprojects/alterator-module-executor/executor.c:300-308 | entries that are not empty, printed with a NUL behind each, come back in order |
| ReplyMeaning.NonEmptyTwo | subprojects/alterator-module-executor/executor.c:300-308 | of a string array exactly the empty entries are left out, and the others stay in order |
| ReplyMeaning.ArrayNameExact | subprojects/alterator-module-executor/executor.c:186-187 | a name stands for an array if and only if it ends in brackets, which are no part of the bare name |
| ReplyMeaning.NamesDistinct | subprojects/alterator-module-executor/executor.c:2131-2149 | no two published output arguments share a name, JSON outputs aside |
| ReplyMeaning.NameTellsMode | subprojects/alterator-module-executor/executor.c:2131-2149 | the published name of the output tells how the output is carried |
| ExecutorReply.LadderTypePublished | subprojects/alterator-module-executor/executor.c:242-497 | the type constants of the ladder are the published types for every combination of flags |
| ExecutorReply.ReplyAsPublished | subprojects/alterator-module-executor/executor.c:2131-2149 | for every combination of flags, names and captured data, a reply with values has exactly the published output types, one by one, and carries them exactly when the status may be returned and JSON, if wanted, parses |
| ExecutorReply.AddOutputArgs | subprojects/alterator-module-executor/executor.c:1814-1829 | introspection publishes one argument for each JSON name, bare of its brackets, with its type |
| ExecutorReply.Introspect | subprojects/alterator-module-executor/executor.c:2131-2149 | introspection publishes the output arguments in order, each with its name and type |
| ExecutorAnswer.OwnBufferOnly | subprojects/alterator-module-executor/executor.c:242-497 | a reply depends only on the buffers that the callbacks fill for its flags |
| ExecutorAnswer.AnswerComplete | subprojects/alterator-module-executor/executor.c:546-552 | for every run on working channels: an answer within both limits is the one made from everything both streams carried and the code the process ended with; a stream cut short shows as status 2 or 3, stdout first, or as an error |
| CommandTemplate.CheckExecuteString | subprojects/alterator-module-executor/executor.c:81-104 | accepts exactly the strings of at least two characters whose braces take turns and end closed |
| CommandTemplate.AcceptedAreJoins | subprojects/alterator-module-executor/executor.c:81-104 | these are exactly the joins of an odd number of brace-free parts |
| CommandTemplate.SplitRestores | subprojects/alterator-module-executor/executor.c:1890 | splitting such a string gives an odd number of brace-free parts, and putting the braces back restores it |
| CommandTemplate.JoinRestored | subprojects/alterator-module-executor/executor.c:1890 | splitting undoes joining for all brace-free parts |
| CommandLine.IsCorrectName | subprojects/alterator-module-executor/executor.c:1516-1540 | a name of two or more characters is correct when its checked part is not empty and has letters, digits and underscores only |
| CommandLine.IsCorrectExecute | subprojects/alterator-module-executor/executor.c:1544-1575 | a split template is correct when its program has two characters or more and all its parameter names are correct |
| CommandLine.IntrospectInputs | subprojects/alterator-module-executor/executor.c:2103-2129 | one input is published for each placeholder, in order, with its type and bare name, and one for stdin if enabled |
| CommandLine.Render | subprojects/alterator-module-executor/executor.c:1364-1409 | the command line is the parts in turn with parameters for placeholders; exactly one parameter is used for each published input, and the one behind the placeholders goes to stdin |
| CommandLine.PublishedInputsFit | subprojects/alterator-module-executor/executor.c:1364-1409 | parameters of the published types have the types rendering needs, and one is left for stdin exactly when it is enabled |
| CommandLine.RenderIsSubstitution | subprojects/alterator-module-executor/executor.c:1364-1409 | rendering an accepted template part by part is substituting its placeholders in a single reading of it |
| CommandLine.RenderedPieces | subprojects/alterator-module-executor/executor.c:1364-1400 | a command line is its pieces, one behind the other: literal parts, texts as they are, arrays in quotes, and nothing for a parameter that is missing |
| CommandLine.QuotedExactly | subprojects/alterator-module-executor/executor.c:1371-1387 | splitting a rendered array parameter at its quotes gives back its elements and what stands between them if and only if no element has such a quote |
| CommandLine.ElementInQuotes | subprojects/alterator-module-executor/executor.c:1371-1387 | each element has quotes of its own, with one space between elements and none at the end |
| CommandLine.OwnPlaceholders | subprojects/alterator-module-executor/executor.c:1364-1409 | a template filled in with its own placeholders is itself |
| Columns.ColumnInBounds | subprojects/alteratorctl/alteratorctlcommon.c:701-705 | every string has a column of the table, so the width array is never overrun |
| Columns.RowsShrink | subprojects/alteratorctl/alteratorctlcommon.c:697-719 | more columns never need more rows |
| Columns.WidthUpToIsMaximum | subprojects/alteratorctl/alteratorctlcommon.c:703-704 | a column width is the length of its longest string |
| Columns.ColumnWidths | subprojects/alteratorctl/alteratorctlcommon.c:721-728 | the array holds each column's width |
| Columns.MeasureTotal | subprojects/alteratorctl/alteratorctlcommon.c:707-710 | the total is the widths and two spaces between each two columns |
| Columns.ChooseColumns | subprojects/alteratorctl/alteratorctlcommon.c:697-719 | the search gives the largest count that fits, so no count that fits needs fewer rows; one column if none fits |
| Columns.PrintRow | subprojects/alteratorctl/alteratorctlcommon.c:733-746 | a line has the strings of its row, each padded to its column |
| Columns.ColumnizeText | subprojects/alteratorctl/alteratorctlcommon.c:679-754 | nothing without strings or a terminal; otherwise the lines of the chosen table |
| Columns.ShownOnce | subprojects/alteratorctl/alteratorctlcommon.c:731-747 | for any number of strings and columns, every index occurs exactly once among the rows |
| Columns.TextInPlace | subprojects/alteratorctl/alteratorctlcommon.c:731-747 | every string stands in its row exactly where its column starts, so columns line up and are filled downwards |
| Columns.LineFits | subprojects/alteratorctl/alteratorctlcommon.c:731-747 | no line is longer than the table's width and the two-space indent |
| Columns.FeasibleLines | subprojects/alteratorctl/alteratorctlcommon.c:714-718 | whenever the chosen count fits, which it does if any count does, every line is at most the terminal width and two |
| Columns.UsedExactly | subprojects/alteratorctl/alteratorctlcommon.c:699-704 | exactly the columns up to that of the last string hold one; the columns behind them are empty, which the search allows |
| Columns.FirstLineLongest | subprojects/alteratorctl/alteratorctlcommon.c:731-747 | the first line is as long as any line can be |
| Columns.IndentCounts | subprojects/alteratorctl/alteratorctlcommon.c:714-718 | a table that fits by its width can have a line that is two characters too long |
| Columns.LinesFitExactly | subprojects/alteratorctl/alteratorctlcommon.c:731-747 | for every table, with or without empty columns: all lines fit a width if and only if the indent, the columns that hold a string and the spaces behind them do |
| Columns.TotalWidthExact | subprojects/alteratorctl/alteratorctlcommon.c:707-710 | the width the search measures is that of the longest line but for the indent and the spaces around empty columns |
| PrintedColumns.TextIsLines | subprojects/alteratorctl/alteratorctlcommon.c:731-747 | the printed text splits at its line feeds into exactly the lines of the rows, in order, with nothing behind the last |
| PrintedColumns.PrintedText | subprojects/alteratorctl/alteratorctlcommon.c:731-747 | in the printed text, string i stands in line i mod rows, from the start of column i div rows on |
| PrintedColumns.PrintedOnce | subprojects/alteratorctl/alteratorctlcommon.c:731-747 | the printed text is the cells of the strings, each exactly once, and line feeds |
| PrintedColumns.CellIsPadded | subprojects/alteratorctl/alteratorctlcommon.c:739-744 | a cell is its string with spaces around it |
| JsonText.StepPast | subprojects/alterator-module-remote/remote.c:966-982 | a scan passes spaces up to a character and nothing else |
| Characters.ClassesExact | subprojects/alterator-module-remote/remote.c:877-893 | the character classes of the scanners, by codes; a character of a word is printable and no space |
| JsonText.BlanksExact | subprojects/alterator-module-remote/remote.c:844-845 | what is stripped from an element are the spaces but for the vertical tab |
| JsonText.CopyValue | subprojects/alterator-module-remote/remote.c:984-1003 | a value is copied up to the first quote without a backslash before it, if it is printable |
| JsonText.GetJsonValueStr | subprojects/alterator-module-remote/remote.c:946-1008 | the value behind the first occurrence of the key, or nothing |
| JsonText.UnquoteAll | subprojects/alterator-module-remote/remote.c:921-935 | all elements without quotes and blanks in order, or nothing if a quote is missing |
| JsonText.UnquotedExact | subprojects/alterator-module-remote/remote.c:836-858 | an element is read as u if and only if it is u in quotes with blanks around them |
| JsonText.AllUnquotedExact | subprojects/alterator-module-remote/remote.c:921-935 | a list is read element by element, or not at all |
| JsonText.GetJsonValueArrStr | subprojects/alterator-module-remote/remote.c:862-942 | the list behind the first occurrence of the key, or nothing |
| JsonMessages.SearchByStretch | subprojects/alterator-module-remote/remote.c:956 | a quoted word occurs in a line exactly where a stretch between two quotes is that word, and the first occurrence is the first such stretch |
| JsonMessages.PartsEndEscaped | subprojects/alterator-module-remote/remote.c:956 | in a value whose quotes are all escaped, only the stretch behind the last quote can be the word of a key |
| JsonMessages.CopiedExactly | subprojects/alterator-module-remote/remote.c:984-1003 | any value, with or without quotes, is copied as it is if and only if it is printable, each of its quotes comes behind a backslash and it does not end in one |
| JsonAgent.PrintUsers | subprojects/remote-polkit-agent/polkitagentremotelistener.c:492-517 | the message that asks to choose a user, as it is printed |
| JsonAgent.ReadPkStdout | subprojects/alterator-module-remote/remote.c:1391-1430 | a line is read without the line feed that ends it, if there is one, and otherwise whole: which handler takes it and what it reads from it |
| JsonAgent.OneValueReadBack | subprojects/alterator-module-remote/remote.c:1405-1430 | for every value, quotes included: a message comes back through its own handler if and only if the value is printable, each of its quotes comes behind a backslash, it does not end in one, and what follows its last quote is not a word looked for earlier |
| JsonAgent.TellAndRead | subprojects/alterator-module-remote/remote.c:1391-1430 | a message with one value, printed with its line feed and read, comes back under exactly these conditions |
| JsonAgent.CutAtBareQuote | subprojects/alterator-module-remote/remote.c:984-1003 | of a value with a bare quote, what precedes the first such quote is read |
| JsonAgent.MissingFieldCut | subprojects/remote-polkit-agent/polkitagentremotelistener.c:406-411 | the agent's answer to a reply without its field has bare quotes, and only its first two words are read |
| JsonAgent.EscapingCleans | subprojects/remote-polkit-agent/polkitagentremotelistener.c:417-418 | escaping a text leaves printable characters and escaped quotes only, and a backslash at the end exactly if the text ends in one |
| JsonAgent.EscapedReadBack | subprojects/remote-polkit-agent/polkitagentremotelistener.c:417-418 | an escaped text comes back as it was sent if and only if it does not end in a backslash and what follows its last quote is not a word looked for earlier |
| JsonUsers.ElementsPlain | subprojects/alterator-module-remote/remote.c:907-931 | no element of a list that is read has a comma or a closing bracket |
| JsonUsers.ListReadBack | subprojects/alterator-module-remote/remote.c:907-935 | a printed list of names comes back, in order, if and only if no name has a comma or a closing bracket |
| JsonUsers.ActionReadBack | subprojects/alterator-module-remote/remote.c:1399-1404 | the message that asks to choose a user always goes to its handler, and the action id comes back if and only if it is printable with its quotes escaped and no backslash at its end |
| JsonUsers.MessageReadBack | subprojects/alterator-module-remote/remote.c:1399-1404 | behind an action id with its quotes escaped, the message comes back if and only if it is such a value too and the action id does not end in the word of its key |
| JsonUsers.UsersReadBack | subprojects/alterator-module-remote/remote.c:1399-1404 | behind values with their quotes escaped, the users come back, quotes included, if and only if none has a comma or a closing bracket and neither value ends in the word of their key |
| JsonUsers.SelectUserReadBack | subprojects/alterator-module-remote/remote.c:1399-1404 | for all values and users: the whole message comes back if and only if both values are printable with their quotes escaped and no backslash at the end, no user has a comma or a closing bracket, and no value ends, behind its last quote, in the word of a later key |
| JsonUsers.PrintAndRead | subprojects/alterator-module-remote/remote.c:1391-1404 | the message that asks to choose a user, printed and read, comes back under exactly these conditions |

## Left out

- Forest.NodeForest: nodes are values and their links maps of one object, so node identity across memory, reference counting and the root that is freed after printing are not modelled.
- SectionLinks.GatherTops: the order of siblings and the collation used for sorting them are not part of the result; membership, parents and statuses are.
- SectionList.ShowSections: the option that starts at one category, and the texts printed for each node, are not modelled.
- Affected.CalculateAffected: package names are taken as resolved, kernel flavour included; reading descriptions from TOML and asking the package manager are inputs.
- BackendCall.MethodData.OnChildStdout: the byte in front of the buffer is an input; the theorems about cutting assume it is no backslash, which `BackendScanner.BeforeMatters` shows is needed.
- BackendRoundTrip.ParserUndoesEncoder: values are C strings, so without NUL; keys are not empty.
- BackendCall.AnsweredOnce: does not cover the end of the stream, channel errors or an exit before the answer is complete.
- The backend3 thread and child lifecycle, its busy flag and timeouts.
- ExecutorWorker.ChildData.OnChildStderr: a failed read of stderr leaves the line and its length unset in the original; the model takes the length as zero and the line as missing.
- ExecutorRuns.NothingDropped: speaks of runs whose channels report no error condition and no failed read.
- ExecutorThreads.NeverStuck: says that a step is possible and not that the scheduler or a child process takes it; the timeout that kills a child is an exit event.
- ExecutorThreads.Can: dispatcher calls come one at a time, as the bus delivers them; an interface and a method stand for their entries in one object's table.
- ExecutorReply.InvocationReturnValue: the JSON parser is a function given to the model, total on every text; the bus transport and the wording of errors are not modelled.
- CommandLine.Render: the types of the parameters are taken to be the published ones, which the bus library checks before the call; shell parsing of the command line, the environment and the stdin write loop are not modelled.
- PrintedColumns.PrintedText: speaks of strings without line feeds; a string with one breaks the table in the original too.
- Columns.ColumnizeText: lengths are in characters, which are bytes only for ASCII text.
- JsonText.UnquoteAll: an element that is a lone double quote has no defined result in the original, where a length underflows; the model treats it as a missing quote.
- JsonAgent.EscapedReadBack: an escaped text is read with its escapes; the reader does not undo them.
- Names and texts are ASCII: lengths in characters and in bytes are the same.
- The remote module's connection table, its reuse of subtrees and the calls to the password agent.
- Signals to the bus are recorded in order; their emission is not modelled.
- Help texts, HTML and pager output, option conflicts, the editions, diag and manager modules, and the Qt applications.
