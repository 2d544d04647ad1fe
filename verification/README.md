# The algorithms behind as2js and advgetopt

This project models the stateful algorithms of the `as2js` compiler front end
(`contrib/as2js/lib`) and two routines of `contrib/advgetopt/src`, and proves what they
keep, what they compute and, where the code does not keep what its comments promise,
exactly when it does. `dafny verify dfyconfig.toml` checks everything.

But for the optimizer, every routine that changes state is a method on mutable objects, written with the source's
branches and loops, and is proved equal to a function of the state before. Every exception is
an outcome, and the state is stated on both exits. The lemmas are about those functions, over
all inputs and, for locks, attributes and the package database, over all runs.

| part | files | main results |
|---|---|---|
| node tree, locks | `node_tree`, `forest_laws`, `replace_laws`, `node_lock`, `clean_tree`, `clean_filter` | `ForestLaws.MoveAt`, `ForestLaws.ReparentAcyclic`, `ReplaceLaws.ReplaceSucceeds`, `NodeLocks.LockProtects`, `CleanFilter.CleanedIsFiltered` |
| optimizer | `optimizer_match`, `match_tests`, `match_laws`, `optimizer_tree`, `optimizer_slot` | `MatchLaws.MatchTreeCorrect`, `OptimizerTree.OptimizeTree`, `OptimizerSlot.SlotIsKept` |
| lexer and JSON | `lexer_spec`, `lexer`, `json_text`, `json_roundtrip`, `json_strings`, `json_values`, `json_graph`, `json_cycles`, `json_edits`, `json_trees`, `json_reader`, `json_spelling`, `json_syntax`, `json_grammar`, `json_file` | `JsonStrings.StringRoundTrip`, `JsonValues.ReadBack`, `JsonCycles.CycleGuard`, `JsonEdits.EditKeepsPrintable`, `JsonSyntax.ReadSyntax`, `JsonGrammar.ReadIffGrammar` |
| package database | `ordered_map`, `glob`, `db`, `db_runs`, `saved_database` | `DatabaseRuns.Run`, `SavedDatabase.SaveAndReload`, `Glob.MatchesIffFilled` |
| overloads, classes | `overload`, `overload_laws`, `overload_search`, `overload_ties`, `class_hierarchy`, `class_member` | `OverloadSearch.Compiler.SelectBestFunc`, `OverloadLaws.OrderDoesNotMatter`, `OverloadLaws.AnsweredInEveryOrder`, `ClassHierarchy.FoundIffAbove`, `ClassHierarchy.SearchesAgree` |
| attributes, goto | `attribute_kinds`, `attributes`, `prepare_attributes`, `attribute_laws`, `attribute_lists`, `attribute_chains`, `attribute_trees`, `attribute_variables`, `goto`, `goto_exit` | `AttributeLaws.RunIsConsistent`, `AttributeLists.VisibilityByEntries`, `AttributeLists.FirstServed`, `AttributeVariables.EveryAttributeIsFound`, `GotoTargets.SearchEnds`, `GotoExit.Follow` |
| options, pipe buffer | `option_table`, `getopt`, `getopt_laws`, `getopt_grammar`, `environment_words`, `environment_laws`, `read_pipe` | `GetoptGrammar.AcceptedIffLegal`, `GetoptLaws.TwoPasses`, `EnvironmentLaws.CutAtBlanks`, `EnvironmentWords.WhatCanBeGiven`, `ReadPipe.FeedSplit`, `ReadPipe.NothingLost` |

`sequences` and `text` hold what the others share. Characters are integers, as the code's 32 bit
characters are; a snapshot of the objects of a set is a value (`Forest`, `Graph`), so that
the laws are about values while the code works on objects.

## Where the code and its comments differ

The model follows the code.

- `set_parent()` does not keep a node from being hung below itself, although
  `node_display.cpp:412-415` relies on it; `ForestLaws.ReparentAcyclic` says exactly when it happens and
  `ForestLaws.RootBelowChild` is a call that does it. An index that is too big is found when the child is already out.
- `replace_with()` unlocks the parent for the time of the exchange, so a locked node can be hung
  below itself in the place of its child (`NodeLocks.LockedNodeCanMove`), and it fails on a sibling of a last child
  (`ReplaceLaws.ReplaceSucceeds`).
- `match_node()` wants every set of attributes and flags of an entry to be equal, where its comment
  (`optimizer_matches.cpp:64-69`) says one of them; `MatchLaws.VerdictsAgree` says for which entries that is
  the same. The tables in the repository list no attributes and no flags, so they do not reach the difference.
- `append_string()` escapes neither the backslash nor U+2028 and U+2029; `JsonStrings.StringRoundTrip` is
  the exact condition, and the round trip of values is proved for the corrected escaper too.
- `set_member()` documents an exception for a null pointer; the code removes the member.
- A database file that holds `null` leaves a root that is not an object, and an empty name is refused
  by the tree only: `add_package()` and `add_element()` then fail when the map has the new entry already.
- `best_param_match_derived_from()` speaks of the classes in which the two functions were found, but it looks
  at the match nodes, which hang below the parameter list of the call. So it only asks whether the call is
  written in a class: there the first of two equals is kept, elsewhere the tie is an error (`OverloadTies.DuelIs`).
- `select_best_func()` stores a position that is one too far after a replacement, so every replacement from the second on
  deletes the new best match node and leaves that of the first winner, in which `call_add_missing_params()`
  (`compiler_function.cpp:1142-1143`) then looks. The list is left as meant iff there was at most one replacement. And a deleted
  match node is in no class, so its next tie is an error in a class too. Hence the order of the candidates decides whether an ambiguity is reported:
  `OverloadLaws.AnsweredInEveryOrder` says exactly for which candidates it does not, and
  `OverloadLaws.SecondReplacementLosesTie` and `OverloadLaws.AnswerDependsOnOrder` are calls for which it does.
- `find_class()` ignores the lists that `is_derived_from()` accepts; `ClassHierarchy.SearchesAgree` says exactly when
  that makes no difference.
- `prepare_attributes()` overwrites `native` and `enumerable` with what the parent has
  (`AttributeLaws.NativeIsNotKept`, and for the whole chain `AttributeLaws.OnlyTheTopCounts`), and below anything but a class
  `dynamic` and `final` too (`AttributeChains.DynamicComesDown`).
- The message about exclusive attributes names six of which only one can be used; four pairs of them are let through
  (`AttributeLists.RivalsAreGroups`), so an attribute that was refused can make room for a later one (`AttributeLists.FirstServed`).
- The environment variable is not quite parsed like in a shell: an empty word cannot be given
  (`EnvironmentWords.WhatCanBeGiven`).
- `find_labels()` is given programs and packages too, on which `add_label()` raises an exception;
  `GotoTargets.SearchEnds` says exactly when the search ends without one.
- A line number in the database keeps its low 32 bits only (`PackageDatabase.LineIsKept`).

## Model

| member | source | states |
|---|---|---|
| `NodeTree.Node.SetParent` | contrib/as2js/lib/node_tree.cpp:162-432 | the forest and the way the call ends are exactly `Reparent` of the forest before: refusal by a lock or a type, nothing at all for the same parent and no index, else the move |
| `NodeTree.Node.Check` | contrib/as2js/lib/node_tree.cpp:162-400 | the order of the refusals: the locks of the node, of the new parent and of a different old parent, then the types |
| `NodeTree.Node.MoveTo` | contrib/as2js/lib/node_tree.cpp:402-431 | the child leaves its old vector before the index is tested, so a bad index leaves it detached |
| `NodeTree.Node.DeleteChild` | contrib/as2js/lib/node_tree.cpp:497-500 | removes the child at the index, or raises out of range and changes nothing |
| `NodeTree.Node.AppendChild` | contrib/as2js/lib/node_tree.cpp:526-535 | a null pointer is refused; else the child is moved to the end |
| `NodeTree.Node.InsertChild` | contrib/as2js/lib/node_tree.cpp:562-571 | a null pointer is refused; else the child is moved to the index |
| `NodeTree.Node.SetChild` | contrib/as2js/lib/node_tree.cpp:596-606 | the old child leaves first; when that works the new one is inserted at its index |
| `NodeTree.Node.ReplaceWith` | contrib/as2js/lib/node_tree.cpp:657-690 | the forest after the call is exactly `Replace` of the forest before: the parent unlocked, the exchange, the lock counter put back on every exit |
| `NodeTree.Node.GetOffset` | contrib/as2js/lib/node_tree.cpp:846-866 | the position of the node in its parent, an error exactly when there is no parent or the parent does not know it |
| `ForestLaws.ReparentKeepsLinks` | contrib/as2js/lib/node_tree.cpp:162-432 | on both exits a node occurs in a vector iff that node is its parent, and exactly once; the internal error cannot happen |
| `ForestLaws.ReparentOutcomes` | contrib/as2js/lib/node_tree.cpp:162-432 | when each outcome happens, in terms of locks, types and the shortened vector, and what each leaves behind |
| `ForestLaws.RefusalReasons` | contrib/as2js/lib/node_tree.cpp:162-176 | a lock on the node or on either parent is refused, and only those |
| `ForestLaws.MoveOutcome` | contrib/as2js/lib/node_tree.cpp:402-431 | a move fails exactly when the index is not in the vector without the child |
| `ForestLaws.MoveAt` | contrib/as2js/lib/node_tree.cpp:402-431 | seen from any node: only the moved node changes parent, only the old and the new parent change vector, by one removal and one insertion at the index |
| `ForestLaws.ReparentAcyclic` | contrib/as2js/lib/node_tree.cpp:162-432 | a call makes a loop iff the new parent is in the subtree of the node, no lock and no type is in the way, and the index is in the vector; the code tests all but the first |
| `ForestLaws.RootBelowChild` | contrib/as2js/lib/node_tree.cpp:162-432 | the shortest one: a root is appended to its own child |
| `ForestLaws.AcyclicMeansNoOwnAncestor` | contrib/as2js/lib/node_display.cpp:412-415 | on a finite forest, chains of parents end iff no node is its own ancestor |
| `ForestLaws.ReparentUndo` | contrib/as2js/lib/node_tree.cpp:162-432 | moving a node back to its old parent and offset restores the whole forest |
| `ForestLaws.DeleteAtKeepsLinks` | contrib/as2js/lib/node_tree.cpp:497-500 | deleting keeps the two-way link |
| `ReplaceLaws.ReplaceAtKeepsLinks` | contrib/as2js/lib/node_tree.cpp:596-606 | setting a child keeps the two-way link, also half way |
| `ReplaceLaws.ReplaceRestores` | contrib/as2js/lib/node_tree.cpp:657-690 | the two-way link, the types and every lock counter survive, on success and on failure |
| `ReplaceLaws.ReplaceSucceeds` | contrib/as2js/lib/node_tree.cpp:657-690 | success iff the locks and types allow both moves and the new node is not a sibling of a last child |
| `ReplaceLaws.ReplaceInPlace` | contrib/as2js/lib/node_tree.cpp:657-690 | seen from any node: a node from elsewhere takes exactly that position, all others keep theirs |
| `ReplaceLaws.ReplaceRefused` | contrib/as2js/lib/node_tree.cpp:657-690 | what a refused exchange leaves: the vector without the old child if that one could leave, else the vector |
| `ReplaceLaws.ReplaceKeepsParent` | contrib/as2js/lib/node_tree.cpp:657-690 | unless it is the new node itself, the parent stays where it is |
| `ReplaceLaws.ReplaceBySelf` | contrib/as2js/lib/node_tree.cpp:657-690 | replacing a node by itself changes nothing |
| `ReplaceLaws.ReplaceAcyclic` | contrib/as2js/lib/node_tree.cpp:657-690 | an exchange makes a loop iff the new node is the parent or one of its ancestors and no lock and no type is in the way |
| `NodeTree.Node.Lock` | contrib/as2js/lib/node_lock.cpp:166-169 | adds one to the counter of this node alone |
| `NodeTree.Node.Unlock` | contrib/as2js/lib/node_lock.cpp:204-212 | takes one off, or raises an internal error when there is none |
| `NodeLocks.NodeLock.constructor` | contrib/as2js/lib/node_lock.cpp:249-257 | locks its node, if it has one |
| `NodeLocks.NodeLock.Unlock` | contrib/as2js/lib/node_lock.cpp:295-302 | unlocks once; a second call does nothing |
| `NodeLocks.StepKeepsBalance` | contrib/as2js/lib/node_lock.cpp:249-302 | over any step each counter is the number of live locks on its node |
| `NodeLocks.StepRespectsLock` | contrib/as2js/lib/node_lock.cpp:93-104 | a locked node keeps its parent and its vector under every tree operation but the replacement of one of its children |
| `NodeLocks.ExchangeUnderLock` | contrib/as2js/lib/node_tree.cpp:657-690 | replacing a child of a locked node: when it succeeds, what the vector is then and what it is otherwise, and when the locked node itself moves |
| `NodeLocks.ExchangeKeepsParent` | contrib/as2js/lib/node_tree.cpp:657-690 | unless the locked node is the replacement, it keeps its parent |
| `NodeLocks.LockProtects` | contrib/as2js/lib/node_lock.cpp:249-302 | over whole runs: while a lock is held the node keeps its parent; its vector keeps its length if children are only exchanged, and is the same if none is |
| `NodeLocks.LengthUnderLock` | contrib/as2js/lib/node_lock.cpp:249-302 | over whole runs in which children of the locked node are replaced by nodes from elsewhere: the vector is shorter by exactly the number of exchanges whose new node is refused |
| `NodeLocks.LockedNodeCanMove` | contrib/as2js/lib/node_tree.cpp:678-689 | a concrete run that moves a locked node: `replace_with()` of its child by the node itself |
| `CleanTree.CleanTree` | contrib/as2js/lib/node_tree.cpp:806-822 | terminates; on success the forest is the one in which exactly the unknown nodes reachable through known ones are cut; without locks it succeeds; an exception only cut links |
| `CleanTree.CleanChild` | contrib/as2js/lib/node_tree.cpp:808-821 | one turn of the loop, which walks the vector it shortens |
| `CleanFilter.CleanedKeepsExactly` | contrib/as2js/lib/node_tree.cpp:806-822 | a node is below the root afterwards iff no node from it up to the root was unknown; none left is unknown |
| `CleanFilter.CleanedIsFiltered` | contrib/as2js/lib/node_tree.cpp:806-822 | the tree read in document order is the old one, filtered |
| `OptimizerMatch.MatchTree` | contrib/as2js/lib/optimizer_matches.cpp:329-394 | the recursive routine with its three cursors is a function of the table and the tree; a table cut short or too deep ends it as in the code |
| `MatchTests.VerdictMeans` | contrib/as2js/lib/optimizer_matches.cpp:86-297 | in the fields of the node: when an entry accepts it (type, text, number with NaN equal to NaN alone, bits under a mask, side effects, truth, sets) and when its value cannot be tested |
| `MatchTests.BitsMean` | contrib/as2js/lib/optimizer_matches.cpp:152-186 | the mask test, bit by bit |
| `MatchTests.OneEntry` | contrib/as2js/lib/optimizer_matches.cpp:86-297 | `match_tree()` on a table of one entry succeeds iff the node is what the entry asks for, and raises iff its type fits and its value cannot be tested |
| `MatchTests.TruthDecides` | contrib/as2js/lib/optimizer_matches.cpp:216-228 | an entry that asks for true, or for false, accepts exactly the nodes that are always so |
| `MatchLaws.FlatRefinesTree` | contrib/as2js/lib/optimizer_matches.cpp:329-394 | on the table of a pattern tree, whatever follows in the table, it gives the verdict and the node array of matching the trees |
| `MatchLaws.MatchMeans` | contrib/as2js/lib/optimizer_matches.cpp:86-327 | matching the trees means: same shape (exact number of children at inner entries, any at leaves) and every test passes, with the back references into the nodes collected so far |
| `MatchLaws.MatchTreeCorrect` | contrib/as2js/lib/optimizer_matches.cpp:329-394 | the main result: success iff the node has the form of the pattern and each node that faces an entry is what the entry asks for; and then entry i of the node array is the node facing entry i |
| `MatchLaws.RulesAgree` | contrib/as2js/lib/optimizer_matches.cpp:236-262 | all listed sets, as coded, and one of them, as documented, are the same on every set iff the listed sets are all the same |
| `MatchLaws.VerdictsAgree` | contrib/as2js/lib/optimizer_matches.cpp:86-297 | an entry gives the documented verdict on every node iff its sets of attributes are all the same and its sets of flags too, or nothing passes its other tests |
| `MatchLaws.TwoSetsDiffer` | contrib/as2js/lib/optimizer_matches.cpp:236-262 | a node with the first of two listed sets is refused |
| `OptimizerSlot.SlotStep` | contrib/as2js/lib/optimizer_optimize.cpp:769-776 | on the nodes: replacing a node in the slot by one from below it, or by a new one, changes the vector of the parent at that place or nowhere |
| `OptimizerSlot.SlotIsKept` | contrib/as2js/lib/optimizer_tables.cpp:225-235 | over whole runs of such exchanges and removals: the parent keeps the number of its children and all others in their places, and the forest stays linked and acyclic |
| `OptimizerTree.ApplyOptimization` | contrib/as2js/lib/optimizer_tables.cpp:163-195 | rewrites exactly when the entry matches, and fails without a parent |
| `OptimizerTree.OnePass` | contrib/as2js/lib/optimizer_tables.cpp:239-262 | one pass keeps the meaning; it changed something iff a rewrite fired, and then the measure went down; nothing matched iff it did not |
| `OptimizerTree.OptimizeTree` | contrib/as2js/lib/optimizer_tables.cpp:215-273 | terminates; keeps the meaning; true iff some rewrite fired; nothing matches the node that is there at the end |
| `OptimizerTree.OptimizeChildren` | contrib/as2js/lib/optimizer_tables.cpp:225-235 | each child is optimized in its slot: the number of children and the node itself are kept |
| `Lexing.Lexer.constructor` | contrib/as2js/lib/lexer.cpp:697-722 | the lexer starts on the text with each end of line read as one newline |
| `LexerSpec.EndsOfLine` | contrib/as2js/lib/lexer.cpp:768-842 | a carriage return and newline, a newline, and a lone carriage return are one newline each |
| `Lexing.Lexer.Getc` | contrib/as2js/lib/lexer.cpp:755-843 | takes one character off what is left |
| `Lexing.Lexer.GetcInput` | contrib/as2js/lib/lexer.cpp:768-842 | a carriage return, alone or before a newline, reads as one newline |
| `Lexing.Lexer.Ungetc` | contrib/as2js/lib/lexer.cpp:845-851 | undoes the read of a character; the end of the input is not put back |
| `Lexing.Lexer.ReadHex` | contrib/as2js/lib/lexer.cpp:1046-1080 | up to so many digits, the character after them put back |
| `Lexing.Lexer.EscapeSequence` | contrib/as2js/lib/lexer.cpp:1189-1286 | the character an escape stands for, and what is left of the input |
| `Lexing.Lexer.ReadString` | contrib/as2js/lib/lexer.cpp:2183-2213 | the characters up to the quote; a line terminator or the end closes the string early |
| `Lexing.Lexer.ReadIdentifier` | contrib/as2js/lib/lexer.cpp:1425-1480 | the longest run of letters and digits, escapes included |
| `Lexing.Lexer.ReadDigits` | contrib/as2js/lib/lexer.cpp:1311-1326 | all digits and no more |
| `Lexing.Lexer.ReadNumber` | contrib/as2js/lib/lexer.cpp:1989-2161 | a decimal number as a 64 bit integer, or the error of one that is too big |
| `Lexing.Lexer.SkipLine` | contrib/as2js/lib/lexer.cpp:2682-2688 | skips to the end of the line |
| `Lexing.Lexer.SkipBlock` | contrib/as2js/lib/lexer.cpp:2691-2708 | skips to the end of the comment |
| `Lexing.Lexer.GetToken` | contrib/as2js/lib/lexer.cpp:2329-2944 | the next token and what is left of the input are those of the reference lexer |
| `Lexing.Lexer.GetNextToken` | contrib/as2js/lib/lexer.cpp:2246-2290 | the same, with the check on letters right after a number |
| `JsonGraph.AppendString` | contrib/as2js/lib/json.cpp:110-171 | appends the quoted text with the escapes the code makes |
| `JsonStrings.StringRoundTrip` | contrib/as2js/lib/json.cpp:110-171 | a string of Unicode characters is read back exactly, with nothing more and nothing less, iff it holds no backslash and no line or paragraph separator |
| `JsonStrings.BackslashIsLost` | contrib/as2js/lib/json.cpp:116-166 | the shortest failure: a backslash comes back as a quote |
| `JsonRoundTrip.ReadSafe` | contrib/as2js/lib/lexer.cpp:2183-2213 | for the escaper as it is and for a corrected one: a safe string is read back up to its closing quote |
| `JsonValues.ReadInt` | contrib/as2js/lib/lexer.cpp:1989-2161 | a 64 bit integer is read back, the smallest one included |
| `JsonValues.ReadBackItems` | contrib/as2js/lib/json.cpp:971-1003 | the items of an array are read back in order |
| `JsonValues.ReadBackMembers` | contrib/as2js/lib/json.cpp:907-967 | the members of an object are read back in key order |
| `JsonValues.ReadBack` | contrib/as2js/lib/json.cpp:673-755 | the round trip: parsing the text of a value gives the value and leaves exactly what followed, whatever delimiter that begins with |
| `JsonGraph.JSONValue.Mark` | contrib/as2js/lib/json.cpp:197-210 | the guard refuses a container that is being printed, and marks it otherwise |
| `JsonGraph.JSONValue.Unmark` | contrib/as2js/lib/json.cpp:220-223 | the flag is cleared |
| `JsonGraph.JSONValue.ToString` | contrib/as2js/lib/json.cpp:673-755 | terminates on every graph; the result is the text of the unfolded tree or the exception, and on both exits every flag is what it was |
| `JsonGraph.JSONValue.ArrayToString` | contrib/as2js/lib/json.cpp:679-693 | the same for an array |
| `JsonGraph.JSONValue.ObjectToString` | contrib/as2js/lib/json.cpp:722-740 | the same for an object |
| `JsonGraph.JSONValue.MembersToString` | contrib/as2js/lib/json.cpp:726-737 | the members of an object that is marked, or the exception |
| `JsonCycles.CycleGuard` | contrib/as2js/lib/json.cpp:673-755 | printing fails iff a cycle can be reached from the value |
| `JsonCycles.CyclicalHasLasso` | contrib/as2js/lib/json.cpp:197-210 | the exception comes with a path that returns to a value on it |
| `JsonCycles.DoneHasNoLasso` | contrib/as2js/lib/json.cpp:673-755 | after a success no path from the value returns to itself |
| `JsonCycles.UnfoldFrame` | contrib/as2js/lib/json.cpp:673-755 | the text depends only on what can be reached |
| `JsonGraph.JSONValue.SetItem` | contrib/as2js/lib/json.cpp:527-557 | replaces one item or adds one at the end, or changes nothing and says why |
| `JsonGraph.JSONValue.SetMember` | contrib/as2js/lib/json.cpp:612-635 | sets a member, removes it for a null pointer, or changes nothing and says why |
| `JsonEdits.EditKeepsPrintable` | contrib/as2js/lib/json.cpp:527-637 | making a value a child keeps another printable iff that one does not lead to the container, or the child leads neither back nor to a cycle |
| `JsonEdits.MemberKeepsPrintable` | contrib/as2js/lib/json.cpp:612-635 | the same for `set_member()` |
| `JsonEdits.ItemKeepsPrintable` | contrib/as2js/lib/json.cpp:527-557 | the same for `set_item()` |
| `JsonEdits.EraseKeepsPrintable` | contrib/as2js/lib/json.cpp:630-634 | removing a member never makes a value unprintable |
| `JsonEdits.LeafKeepsPrintable` | contrib/as2js/lib/json.cpp:612-635 | a new value without children never does |
| `OrderedMaps.PutGet` | contrib/as2js/lib/json.cpp:625-629 | setting a key changes what is found under that key and under no other |
| `OrderedMaps.PutInOrder` | contrib/as2js/lib/json.cpp:625-629 | the keys stay in order |
| `OrderedMaps.EraseGet` | contrib/as2js/lib/json.cpp:630-634 | erasing a key does so for that key alone |
| `OrderedMaps.EraseInOrder` | contrib/as2js/lib/json.cpp:630-634 | the keys stay in order |
| `JsonReader.ReadJsonValue` | contrib/as2js/lib/json.cpp:865-1053 | the objects built hold the value that the reference parser reads, share nothing, and leave the same text; it fails exactly when that one does |
| `JsonReader.ReadArray` | contrib/as2js/lib/json.cpp:971-1003 | the same for an array |
| `JsonReader.ReadObject` | contrib/as2js/lib/json.cpp:907-967 | the same for an object; the first of two equal names is kept |
| `JsonReader.ReadMember` | contrib/as2js/lib/json.cpp:915-955 | the same for one member |
| `JsonSpelling.WhiteSpaceIsSkipped` | contrib/as2js/lib/lexer.cpp:2341-2344 | white space and ends of line, listed by their codes, before a token do not matter |
| `JsonSpelling.GapsAreSkipped` | contrib/as2js/lib/lexer.cpp:2679-2708 | nor do comments of either kind |
| `JsonSpelling.StringMeans` | contrib/as2js/lib/lexer.cpp:1189-1286 | a string in either quote means its characters, however each is written: as it is, by a letter escape, or by digits in either case |
| `JsonSpelling.LexToken` | contrib/as2js/lib/lexer.cpp:2329-2944 | each token as it may be written, and what follows it |
| `JsonSyntax.ReadSyntax` | contrib/as2js/lib/json.cpp:865-1053 | every text of a value, with anything of that between its tokens, is read as that value, and what followed is left |
| `JsonSyntax.ObjectMeans` | contrib/as2js/lib/json.cpp:907-967 | an object has its members in the order of their names; of those with one name the first is kept |
| `JsonGrammar.ReadIffGrammar` | contrib/as2js/lib/json.cpp:865-1053 | a text is read as a value iff its tokens are those of a tree of that value: nothing else is accepted |
| `JsonFile.JSON.Parse` | contrib/as2js/lib/json.cpp:806-832 | a text that is refused leaves no value; a number that is too big leaves the old one |
| `JsonFile.JSON.Output` | contrib/as2js/lib/json.cpp:1115-1142 | the byte order mark, the header and the text, or the front part alone when the tree is cyclical |
| `JsonFile.SkipComments` | contrib/as2js/lib/lexer.cpp:2679-2708 | lines of comments are as if they were not there |
| `JsonFile.SavedFileIsReadBack` | contrib/as2js/lib/json.cpp:1115-1142 | a file written with a header of comments is read back as the value |
| `PackageDatabase.Element.constructor` | contrib/as2js/lib/db.cpp:49-107 | the fields are the members of the right type; a line number keeps its low 32 bits |
| `PackageDatabase.LineIsKept` | contrib/as2js/lib/db.cpp:93-102 | the line is the JSON member iff that fits 32 bits |
| `PackageDatabase.Element.SetType` | contrib/as2js/lib/db.cpp:110-115 | the field and its JSON member are set, the others are what they were |
| `PackageDatabase.Element.SetFilename` | contrib/as2js/lib/db.cpp:117-122 | the same for the file name |
| `PackageDatabase.Element.SetLine` | contrib/as2js/lib/db.cpp:124-129 | the same for the line |
| `PackageDatabase.Package.constructor` | contrib/as2js/lib/db.cpp:161-191 | the element map indexes exactly the members that are objects, the very objects of the tree |
| `PackageDatabase.Package.FindElements` | contrib/as2js/lib/db.cpp:200-211 | the elements whose name fits, in key order |
| `PackageDatabase.Package.AddElement` | contrib/as2js/lib/db.cpp:226-242 | an element that is there is returned; a new one is in the map and in the tree, and the two agree iff the name is not empty |
| `PackageDatabase.Database.Load` | contrib/as2js/lib/db.cpp:249-319 | when it answers what, and that an object root gives maps that agree with the tree; a null gives an empty database without an object root |
| `PackageDatabase.Database.LoadPackages` | contrib/as2js/lib/db.cpp:296-316 | each member of the root that is an object becomes a package; the first that is not ends it |
| `PackageDatabase.Database.Save` | contrib/as2js/lib/db.cpp:323-353 | writes the text of the tree, flags as they were |
| `PackageDatabase.Database.FindPackages` | contrib/as2js/lib/db.cpp:356-367 | the packages whose name fits, in key order |
| `PackageDatabase.Database.AddPackage` | contrib/as2js/lib/db.cpp:381-411 | the whole new state, also when the root is not an object or the name is empty and the map already has the package |
| `PackageDatabase.ApartFromTrees` | contrib/as2js/lib/db.cpp:296-316 | in what was parsed, no two indexed objects are the same |
| `PackageDatabase.OneHomeFromTrees` | contrib/as2js/lib/db.cpp:296-316 | in what was parsed, no element belongs to two packages |
| `DatabaseRuns.PerformAddPackage` | contrib/as2js/lib/db.cpp:381-411 | maps and tree agree afterwards iff the name is not empty or was there; the catalog gains that package |
| `DatabaseRuns.PerformAddElement` | contrib/as2js/lib/db.cpp:226-242 | the same for an element, which starts with no type, no file and line 1 |
| `DatabaseRuns.PerformSet` | contrib/as2js/lib/db.cpp:110-129 | maps and tree agree afterwards; the catalog changes in that field alone |
| `DatabaseRuns.Perform` | contrib/as2js/lib/db.cpp:226-411 | one call does to the database what it does to a plain catalog of names and data |
| `DatabaseRuns.Run` | contrib/as2js/lib/db.cpp:226-411 | over whole runs: package and element maps index exactly the very objects of the tree, fields equal their members, the tree can be printed, and the catalog is the one the calls make |
| `DatabaseRuns.AddedPackage` | contrib/as2js/lib/db.cpp:401-410 | the new entry agrees with the new member and with nothing else; without the member it does not |
| `PackageDatabase.AddedElement` | contrib/as2js/lib/db.cpp:230-241 | the same for an element |
| `SavedDatabase.SaysTheSame` | contrib/as2js/lib/db.cpp:249-353 | a consistent database finds what the value of its tree says |
| `SavedDatabase.SaveAndReload` | contrib/as2js/lib/db.cpp:249-353 | saving and loading rebuilds the same packages, elements, types, file names and lines |
| `SavedDatabase.ElementText` | contrib/as2js/lib/db.cpp:66-110 | how an element stands in the file |
| `SavedDatabase.ElementSays` | contrib/as2js/lib/db.cpp:66-110 | and what that says |
| `Glob.DoMatch` | contrib/as2js/lib/db.cpp:418-454 | the recursion with its cursors decides the reference relation |
| `Glob.MatchPattern` | contrib/as2js/lib/db.cpp:414-460 | the same, up to the first NUL |
| `Glob.MatchesIffFilled` | contrib/as2js/lib/db.cpp:414-450 | a name matches iff it is the pattern with a string in the place of each asterisk |
| `Glob.Find` | contrib/as2js/lib/db.cpp:200-211 | the loop collects the entries that fit |
| `Glob.FindsExactly` | contrib/as2js/lib/db.cpp:356-367 | exactly the entries that fit are found, each once, in key order |
| `OverloadSearch.Compiler.BestParamMatch` | contrib/as2js/lib/compiler_function.cpp:961-1021 | prototyped before not, then the depths, then the search of the classes of the two match nodes, in the tree as it is then |
| `OverloadSearch.Compiler.BestParamMatchDerivedFrom` | contrib/as2js/lib/compiler_function.cpp:933-958 | the first is kept iff the class of its match node derives from the class of the other; nobody wins iff neither derives from the other |
| `OverloadSearch.Compiler.SelectBestFunc` | contrib/as2js/lib/compiler_function.cpp:1034-1098 | on the nodes: the winner and the verdict are those of the tournament; nothing but children of the list is deleted; which match node is left, and whether the winner itself was deleted; without a candidate, or a list, an error |
| `OverloadSearch.DeleteStep` | contrib/as2js/lib/compiler_function.cpp:1060-1068 | a deletion cuts the list there, or a lock or a type refuses it and nothing changes |
| `OverloadSearch.NextDuel` | contrib/as2js/lib/compiler_function.cpp:1054-1057 | at each comparison the candidate is in the list, and the best one iff it was not deleted by mistake, which decides the tie |
| `OverloadLaws.CompareMeans` | contrib/as2js/lib/compiler_function.cpp:961-1021 | the loop on the depths decides the order: nowhere deeper, somewhere shallower |
| `OverloadLaws.BeatsTransitive` | contrib/as2js/lib/compiler_function.cpp:961-1021 | that order is transitive and irreflexive |
| `OverloadLaws.WinnerDominates` | contrib/as2js/lib/compiler_function.cpp:1034-1098 | without ties, the winner beats every other candidate |
| `OverloadLaws.DominatorWins` | contrib/as2js/lib/compiler_function.cpp:1034-1098 | a candidate that beats every other wins, ties among the others or not |
| `OverloadLaws.OrderDoesNotMatter` | contrib/as2js/lib/compiler_function.cpp:1034-1098 | the winner does not depend on the order of the candidates |
| `OverloadLaws.AnsweredInEveryOrder` | contrib/as2js/lib/compiler_function.cpp:1034-1098 | an answer is given in every order of the candidates iff, outside of a class, the depths tell any two apart; in a class, iff none that beats a candidate that beats another is in a tie with a fourth |
| `OverloadLaws.SecondReplacementLosesTie` | contrib/as2js/lib/compiler_function.cpp:1034-1098 | four candidates of a call in a class: one order has an answer, another one has not |
| `OverloadLaws.LooseMeans` | contrib/as2js/lib/compiler_function.cpp:1060-1063 | with the arguments first, the best match node is out of the list iff there were at least two replacements |
| `OverloadLaws.AnswerDependsOnOrder` | contrib/as2js/lib/compiler_function.cpp:1034-1098 | outside of a class: two orders of three candidates with different verdicts |
| `OverloadTies.WhereTheCallIs` | contrib/as2js/lib/compiler_function.cpp:684-930 | a match node in the parameter list of the call is in the class the call is in; a deleted one is in none |
| `OverloadTies.SameClassKeepsFirst` | contrib/as2js/lib/compiler_function.cpp:933-958 | two candidates of one class are never left undecided: the first is kept |
| `OverloadTies.DuelIs` | contrib/as2js/lib/compiler_function.cpp:933-1021 | between match nodes of one call the tie-break only asks whether the call is in a class and both are still in the list; it keeps the first, or nobody wins |
| `OverloadTies.SameCall` | contrib/as2js/lib/compiler_function.cpp:1054-1068 | whether the call is in a class does not change while match nodes are deleted |
| `OverloadLaws.Three` | contrib/as2js/lib/compiler_function.cpp:1034-1098 | the tournament on three candidates, spelled out |
| `OverloadLaws.RisingCandidates` | contrib/as2js/lib/compiler_function.cpp:1060-1070 | three candidates, each better than the one before: the match node left is that of the second one, and the best is out of the list |
| `ClassHierarchy.FindClass` | contrib/as2js/lib/compiler_class.cpp:935-1003 | terminates on a hierarchy without loops or dangling links; a direct clause answers d, else the deepest answer from below |
| `ClassHierarchy.IsDerivedFrom` | contrib/as2js/lib/compiler_class.cpp:1006-1071 | the same class, or derived through names and lists |
| `ClassHierarchy.AnyDerivedFrom` | contrib/as2js/lib/compiler_class.cpp:1033-1051 | the loop on the names of one list |
| `ClassHierarchy.DepthIsAPath` | contrib/as2js/lib/compiler_class.cpp:935-1003 | an answer is d plus the length less one of a real inheritance path |
| `ClassHierarchy.AncestorIsFound` | contrib/as2js/lib/compiler_class.cpp:935-1003 | each proper ancestor is found, at depth d or deeper |
| `ClassHierarchy.FoundIffAbove` | contrib/as2js/lib/compiler_class.cpp:935-1003 | found iff a proper ancestor |
| `ClassHierarchy.DepthIsDistance` | contrib/as2js/lib/compiler_class.cpp:935-1003 | with single inheritance the answer is the distance |
| `ClassHierarchy.DepthIsLongest` | contrib/as2js/lib/compiler_class.cpp:935-1006 | with several parents the answer is the length of the longest path on which no class but the last names the target |
| `ClassHierarchy.SearchesAgree` | contrib/as2js/lib/compiler_class.cpp:935-1071 | the two searches agree on all classes iff every class named in a list is also reached without lists |
| `ClassHierarchy.ListIsNotFound` | contrib/as2js/lib/compiler_class.cpp:935-1003 | with a list of names the two searches differ |
| `ClassMember.ClassOfMember` | contrib/as2js/lib/compiler_class.cpp:1087-1109 | the nearest class or interface at or above the node, unless a package or the end comes first |
| `ClassMember.ClassIsNearest` | contrib/as2js/lib/compiler_class.cpp:1087-1109 | going up, it is the first class, interface, package, program or root, if that is a class or an interface |
| `ClassMember.OneClass` | contrib/as2js/lib/compiler_class.cpp:1087-1109 | there is only one |
| `ClassMember.AreObjectsDerivedFromOneAnother` | contrib/as2js/lib/compiler_class.cpp:1132-1147 | true iff both have a class and the class of the first derives from the class of the second |
| `AttributeKinds.RivalsAreMutual` | contrib/as2js/lib/node_attribute.cpp:539-687 | the table of exclusions is symmetric |
| `AttributeLists.RivalsAreGroups` | contrib/as2js/lib/node_attribute.cpp:194-201 | two attributes exclude each other iff one group of the error messages names both, but for four pairs |
| `AttributeKinds.PutIsConsistent` | contrib/as2js/lib/node_attribute.cpp:262-280 | setting an attribute never brings two rivals together |
| `Attributes.GetAttribute` | contrib/as2js/lib/node_attribute.cpp:239-243 | the attribute, or an error where the node cannot have it |
| `Attributes.SetAttribute` | contrib/as2js/lib/node_attribute.cpp:262-280 | set unless a rival is there, cleared in any case; an error where the node cannot have it |
| `Attributes.VerifyExclusive` | contrib/as2js/lib/node_attribute.cpp:539-687 | the flag tests, attribute by attribute, find a conflict iff a rival of the table is set |
| `Attributes.SetAttributeTree` | contrib/as2js/lib/node_attribute.cpp:296-320 | the walk over the tree: which nodes got the attribute, and where it stopped |
| `Attributes.SetEachChild` | contrib/as2js/lib/node_attribute.cpp:315-319 | the loop on the children |
| `Attributes.SetTreeIsConsistent` | contrib/as2js/lib/node_attribute.cpp:296-320 | rivals never meet on a node, on both exits |
| `AttributeTrees.TreeReaches` | contrib/as2js/lib/node_attribute.cpp:296-320 | after a success the node and all below it have it set or cleared, and no other node; a success iff all of them can have it |
| `PrepareAttributes.NodeToAttrs` | contrib/as2js/lib/compiler_attributes.cpp:233-300 | what one word of an attribute list does |
| `PrepareAttributes.ReadList` | contrib/as2js/lib/compiler_attributes.cpp:324-329 | what a list does, word by word |
| `PrepareAttributes.AttrsFromList` | contrib/as2js/lib/compiler_attributes.cpp:321-330 | the list of the node, if it has one |
| `AttributeLists.LiteralMeans` | contrib/as2js/lib/compiler_attributes.cpp:233-300 | which attribute an entry is about, by its type and its name |
| `AttributeLists.AnswerMeans` | contrib/as2js/lib/compiler_attributes.cpp:321-330 | an attribute is in the answer of a list iff an entry about it stands: no entry before it that stands is about a rival |
| `AttributeLists.FirstServed` | contrib/as2js/lib/compiler_attributes.cpp:321-330 | first come, first served: the simple rule holds of an attribute in every list iff the rivals of its rivals are its own |
| `AttributeLists.WhichAreServed` | contrib/as2js/lib/node_attribute.cpp:590-632 | of all attributes but static, constructor, inline, native and virtual |
| `AttributeLists.OwnIsFirst` | contrib/as2js/lib/compiler_attributes.cpp:321-330 | the same for the list of a node, by the types and the names of its entries |
| `PrepareAttributes.InheritFrom` | contrib/as2js/lib/compiler_attributes.cpp:349-385 | visibility, membership and the rest as they come from the parent |
| `PrepareAttributes.DropNative` | contrib/as2js/lib/compiler_attributes.cpp:389-412 | a function with a body is not native |
| `PrepareAttributes.PrepareAttributes` | contrib/as2js/lib/compiler_attributes.cpp:303-413 | terminates; the attributes of the whole tree are those of the reference function; a prepared node is left alone |
| `PrepareAttributes.PrepareFromParent` | contrib/as2js/lib/compiler_attributes.cpp:332-412 | the second half: the parent, prepared first, and the body |
| `AttributeLaws.PrepareIsConsistent` | contrib/as2js/lib/compiler_attributes.cpp:303-413 | preparing never brings two rivals together |
| `AttributeLaws.RunIsConsistent` | contrib/as2js/lib/node_attribute.cpp:262-320 | over whole runs of setting, setting in a tree and preparing, no node ever has two rivals |
| `AttributeLaws.PrepareGivesFinal` | contrib/as2js/lib/compiler_attributes.cpp:303-413 | a prepared node gets its own answer, whatever was prepared before |
| `AttributeLaws.NearestVisibility` | contrib/as2js/lib/compiler_attributes.cpp:338-358 | the visibility is the one of the nearest node at or above that says one, below the package or program |
| `AttributeLaws.VisibilityIsDecided` | contrib/as2js/lib/compiler_attributes.cpp:338-358 | there always is such a node, and its list gives the visibility |
| `AttributeLists.VisibilityByEntries` | contrib/as2js/lib/compiler_attributes.cpp:338-358 | down to the entries: a node is private iff the nearest list that says a visibility says PRIVATE first; its own list alone decides if it says one |
| `AttributeLaws.FalseComesDown` | contrib/as2js/lib/compiler_attributes.cpp:374-379 | a node is false iff it or a node above it, up to that boundary, says so |
| `AttributeLists.FalseByEntries` | contrib/as2js/lib/compiler_attributes.cpp:374-379 | down to the entries: false iff a list at or above the node says FALSE before TRUE |
| `AttributeLists.WhereItStops` | contrib/as2js/lib/compiler_attributes.cpp:332-412 | which nodes inherit, and which functions lose native, by the types of the node, its parent and its children |
| `AttributeChains.MembershipComesDown` | contrib/as2js/lib/compiler_attributes.cpp:360-368 | static, abstract and virtual come from the nearest list that says one of them, past lists that exclude nothing of it |
| `AttributeChains.DynamicComesDown` | contrib/as2js/lib/compiler_attributes.cpp:381-385 | dynamic and final are those of the node nearest to the class, or to the top, whatever the lists below say |
| `AttributeLaws.NativeIsNotKept` | contrib/as2js/lib/compiler_attributes.cpp:370-412 | a node that inherits is native iff its parent is, its own list says neither abstract nor inline, and it is no function with a body; enumerable iff its parent is |
| `AttributeLaws.NativeIsLost` | contrib/as2js/lib/compiler_attributes.cpp:370-372 | a list that says native below a parent that is not |
| `AttributeLaws.OnlyTheTopCounts` | contrib/as2js/lib/compiler_attributes.cpp:370-412 | native and enumerable, read off the lists and bodies of the chain: the topmost node that does not inherit says it; for native nothing below says abstract or inline, and no function on the way has a body |
| `AttributeVariables.Finder.IdentifierToAttrs` | contrib/as2js/lib/compiler_attributes.cpp:95-230 | terminates on every set of variables; flags are put back; the attributes and the report are those of the search |
| `AttributeVariables.EveryAttributeIsFound` | contrib/as2js/lib/compiler_attributes.cpp:213-229 | the guard loses nothing: an attribute is set iff a chain of variables leads to it |
| `AttributeVariables.LoopIsReported` | contrib/as2js/lib/compiler_attributes.cpp:213-229 | a loop is reported iff the variables loop |
| `GotoTargets.AddLabel` | contrib/as2js/lib/node.cpp:943-960 | a label of a function, with a name of its own, and nothing else |
| `GotoTargets.FindLabels` | contrib/as2js/lib/compiler_compile.cpp:128-201 | terminates; the labels registered are those of the reference search; it ends without an exception iff every name in scope is taken already, or is not empty and the owner is a function |
| `GotoTargets.UnderIsWellRegistered` | contrib/as2js/lib/compiler_compile.cpp:128-201 | what is registered is a label in scope below the node, under its own name |
| `GotoTargets.SearchedIsBelow` | contrib/as2js/lib/compiler_compile.cpp:128-201 | the search comes to the nodes below the root past no label, declaration or expression |
| `GotoTargets.SearchEnds` | contrib/as2js/lib/compiler_compile.cpp:128-201 | that condition, for every tree |
| `GotoTargets.EveryLabelIsFound` | contrib/as2js/lib/compiler_compile.cpp:128-201 | under that condition every name in scope is registered |
| `GotoTargets.LabelInProgram` | contrib/as2js/lib/compiler_program.cpp:77-86 | a program with one label: the search raises |
| `GotoExit.FindFrame` | contrib/as2js/lib/compiler_statement.cpp:110-157 | the loop up to the nearest frame, with the nodes on the way |
| `GotoExit.FrameIsNearest` | contrib/as2js/lib/compiler_statement.cpp:110-157 | the frame is the nearest class, interface, function, package or program |
| `GotoExit.FindCommon` | contrib/as2js/lib/compiler_statement.cpp:167-187 | the loop up from the label to the first node on that way |
| `GotoExit.FirstIsDeepest` | contrib/as2js/lib/compiler_statement.cpp:167-187 | the first one is the deepest common proper ancestor |
| `GotoExit.GotoDirective` | contrib/as2js/lib/compiler_statement.cpp:106-188 | the links of the goto are set to the label of the nearest frame and to the deepest node properly above both |
| `GotoExit.RegisteredIsBelow` | contrib/as2js/lib/compiler_compile.cpp:128-201 | when the labels of a function are below it, they still are after one more search of its children |
| `GotoExit.NeverNoCommon` | contrib/as2js/lib/compiler_statement.cpp:167-187 | when labels are below their functions, the internal error about missing parents above a label cannot happen |
| `GotoExit.SearchMore` | contrib/as2js/lib/compiler_function.cpp:304-356 | each search, the second one of the same list included, keeps labels below their functions |
| `GotoExit.Follow` | contrib/as2js/lib/compiler_statement.cpp:106-188 | over whole runs of searches and gotos: labels stay below their functions and no goto ever ends in that error |
| `OptionTable.ReadOptions` | contrib/advgetopt/src/advgetopt.cpp:321-402 | the tables hold exactly the options by letter and by name and the one default option; refused iff a letter or name comes twice, a name is too short or missing, there are two defaults, or nothing is counted |
| `Getopt.GetOpt.AddOption` | contrib/advgetopt/src/advgetopt.cpp:1602-1677 | what is kept under a key after one more value: all in order, the last one, or the first one; an exception iff the key is there and the mode is none of these |
| `Getopt.GetOpt.AddValues` | contrib/advgetopt/src/advgetopt.cpp:1482-1565 | the loop takes the words up to the next option and leaves the index on the last one |
| `Getopt.GetOpt.AddOptions` | contrib/advgetopt/src/advgetopt.cpp:1482-1565 | which words an option takes, in each mode, and where the index is left |
| `Getopt.GetOpt.ParseLetters` | contrib/advgetopt/src/advgetopt.cpp:797-814 | the letters of one word |
| `Getopt.GetOpt.ParseWord` | contrib/advgetopt/src/advgetopt.cpp:732-833 | one turn of the loop, whose callees advance its index |
| `Getopt.GetOpt.AddRest` | contrib/advgetopt/src/advgetopt.cpp:740-758 | after two dashes every word is a value |
| `Getopt.GetOpt.ParseArguments` | contrib/advgetopt/src/advgetopt.cpp:728-835 | terminates; what is kept and how it ends are a fold over the words after the first |
| `GetoptGrammar.LegalIsParsed` | contrib/advgetopt/src/advgetopt.cpp:728-835 | without the parser: what words each option of each mode takes, in which order, and what each means |
| `GetoptGrammar.AcceptedIffLegal` | contrib/advgetopt/src/advgetopt.cpp:728-835 | the command lines parsed to the end are exactly the legal ones, and each is understood in one way |
| `GetoptGrammar.FlagTakesNoWord` | contrib/advgetopt/src/advgetopt.cpp:1486-1489 | the word after an option without argument goes to the default option |
| `GetoptGrammar.AliasIsTheSame` | contrib/advgetopt/src/advgetopt.cpp:1602-1677 | values given to an alias are values of the option it stands for |
| `GetoptLaws.EveryWordOnce` | contrib/advgetopt/src/advgetopt.cpp:728-835 | a parse without a usage error reads each word exactly once, in order |
| `GetoptLaws.ParseFrom` | contrib/advgetopt/src/advgetopt.cpp:728-835 | values go to options of the table, in the environment variable only to the allowed ones |
| `GetoptLaws.KeepMeans` | contrib/advgetopt/src/advgetopt.cpp:1602-1677 | a key whose options share a mode holds all its values in order, the last one or the first one |
| `GetoptLaws.TwoPasses` | contrib/advgetopt/src/advgetopt.cpp:680-697 | the same across the pass over the environment variable and the one over the command line |
| `EnvironmentWords.Tokenize` | contrib/advgetopt/src/advgetopt.cpp:639-677 | the loop cuts the variable at spaces outside quotes |
| `EnvironmentLaws.NothingElseIsLost` | contrib/advgetopt/src/advgetopt.cpp:639-677 | the words, joined, are the characters of the line in order, but for blanks outside quotes and the quotes that quote |
| `EnvironmentLaws.CutAtBlanks` | contrib/advgetopt/src/advgetopt.cpp:639-677 | a word ends at each blank outside quotes |
| `EnvironmentLaws.OneWord` | contrib/advgetopt/src/advgetopt.cpp:639-677 | and nowhere else |
| `EnvironmentLaws.SpacedWordsComeBack` | contrib/advgetopt/src/advgetopt.cpp:669-671 | words without blanks and quotes come back exactly, however many blanks are around them |
| `EnvironmentWords.LineBack` | contrib/advgetopt/src/advgetopt.cpp:639-677 | any words, each character in quotes, come back as they are, but for the empty ones |
| `EnvironmentWords.QuotingRoundTrip` | contrib/advgetopt/src/advgetopt.cpp:639-677 | quoting and cutting give the words back iff none is empty |
| `EnvironmentWords.WhatCanBeGiven` | contrib/advgetopt/src/advgetopt.cpp:639-677 | some value of the variable gives these words iff none of them is empty or holds a NUL |
| `ReadPipe.Output.Write` | contrib/advgetopt/src/hide-warnings.c:98-126 | the record goes to the log unless it is hidden; the byte lent for the NUL is put back |
| `ReadPipe.HiddenIffMatched` | contrib/advgetopt/src/hide-warnings.c:98-118 | a record is hidden iff the pattern matches its text up to the newline or the first NUL |
| `ReadPipe.IoBuf.MemMove` | contrib/advgetopt/src/hide-warnings.c:156 | bytes move to the front, inside the buffer |
| `ReadPipe.IoBuf.Emit` | contrib/advgetopt/src/hide-warnings.c:153-157 | writes the record before the cursor and moves the rest |
| `ReadPipe.IoBuf.Look` | contrib/advgetopt/src/hide-warnings.c:151-162 | one byte |
| `ReadPipe.IoBuf.Scan` | contrib/advgetopt/src/hide-warnings.c:148-163 | the bytes of one read |
| `ReadPipe.IoBuf.ReadOnce` | contrib/advgetopt/src/hide-warnings.c:135-173 | one read, never empty; a full buffer is a record |
| `ReadPipe.IoBuf.ReadPipe` | contrib/advgetopt/src/hide-warnings.c:129-174 | the records written are those of the bytes read, whatever the reads were |
| `ReadPipe.FeedSplit` | contrib/advgetopt/src/hide-warnings.c:129-174 | the records do not depend on how the stream is split into reads |
| `ReadPipe.NothingLost` | contrib/advgetopt/src/hide-warnings.c:129-174 | records and the buffered rest, joined, are the bytes read |
| `ReadPipe.CutWell` | contrib/advgetopt/src/hide-warnings.c:148-172 | a record ends at its first newline or fills the buffer |
| `ReadPipe.OnlyOneCut` | contrib/advgetopt/src/hide-warnings.c:148-172 | there is only one such cut of a stream |

## Left out

- Ownership: shared and weak pointers never expire; that a node dies when its last owner goes is not modelled.
- Node types: grouped as the tests of the code group them; the operators and separators carry a number.
- Attributes.SetAttribute: which nodes may carry the attribute of a known type (`node_attribute.cpp:342-515`) is a parameter.
- Lock counters: unbounded integers, not 32 bit ones.
- OptimizerTree.OptimizeTree: on tree values, not in place, because the rewrites are parameters of the model and a
  parameter cannot change objects; so update in place and the sharing of nodes are not captured.
- OptimizerTree.OnePass: on tree values, like `OptimizeTree`.
- OptimizerTree.OptimizeChildren: on tree values, in which a slot is replaced by one tree; that the nodes behave so is `OptimizerSlot.SlotIsKept`.
- OptimizerSlot.SlotIsKept: that the functions of an entry make such exchanges and removals, one after the other, is assumed of the tables; those that
  rebuild more (`SWAP`, `TO_CONDITIONAL`, `WHILE_TRUE_TO_FOREVER`) are left out, and so is a run that an exception ends.
- OptimizerTree.ApplyOptimization: the rewrites stand for `apply_functions()`, which is not part of this model; a rewrite puts its result in the
  place of the matched root and is a function of the node array. Their contract (meaning kept, a measure lowered) is assumed of the tables.
- OptimizerMatch.MatchTree: what a floating point number becomes as an integer, side effects and the truth of a node are data of the node; the array is a value that is passed on.
- The optimizer's generated tables are not part of this model.
- Lexing.Lexer.GetToken: the tokens JSON needs. Floating point and hexadecimal numbers, `NaN`, `Infinity`, `__FILE__` and `__LINE__` are one
  token called unmodelled, all other operators and regular expressions one called other; what follows them in the text is not described.
- Lexing.Lexer.GetNextToken: the letter after a floating point number, which is not modelled.
- Lexing.Lexer.ReadNumber: decimal integers only; octal and binary numbers need options that JSON does not set.
- The table of letters above ASCII is a parameter; it is searched in an order that its contents do not have.
- JsonSyntax.ReadSyntax: texts with an escape that ends a line, or with a name that holds an escape, are not among those spelled out.
- JsonGraph.JSONValue.ToString: floating point numbers are left out, because `std::to_string()` loses their digits and no round trip holds.
- JsonReader.ReadJsonValue: a floating point number ends the reading with an outcome of its own, outside the model.
- JsonFile.SavedFileIsReadBack: values without floating point numbers.
- Positions, messages and the text of errors; opening, closing and decoding files (a file is its characters).
- PackageDatabase.Database.Load: whether the file exists, and what it holds, are parameters.
- OverloadSearch.Compiler.SelectBestFunc: the depth vectors are given; `check_function_with_params()` computes them against its own comments. They are
  between MATCH_NOT_FOUND and MATCH_LOWEST_DEPTH (`node.h:72-74`, half the largest `int`), so their difference fits the `int` it is put in.
  After a refused deletion the contract says only that children of the list were deleted. The functions linked to the match nodes are left out.
- GotoExit.Follow: the tree does not change between searches and gotos; what the compiler and the optimizer do to it meanwhile is left out.
- ClassHierarchy.FindClass: links are resolved; a depth does not wrap around.
- PrepareAttributes.NodeToAttrs: an identifier as an attribute goes through name resolution and is left out; the guard against loops of variables is modelled on
  a graph of variables of its own, `AttributeVariables`.
- GotoExit.GotoDirective: `break_continue()` is the same walk up and is left out.
- Getopt.GetOpt.AddOptions: the modes with "long" in their name behave like the others; the help texts and the exit after a usage error are an outcome.
- Configuration files of `reset()`: they use the same routines, after reading lines from a file.
- ReadPipe.Output.Write: the regular expression is a parameter, and a failing write, which ends the program, is left out; fork and poll are too.
