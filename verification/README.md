# formlang, modelled and proved

formlang is a header-only library for finite-state transducers and context-free parsing. This project
models its algorithms in Dafny and proves what each of them is for. Words are sequences of letters
(natural numbers); a transducer is given by its arcs, and its relation by the runs that read one word and
write another. One module stands for one component:

| component | modules |
|---|---|
| outputs pushed to the front (`canonical.hpp`) | `PushGraph` (the search over a graph of words), `Canonical`, over `Subsequential` |
| functionality (`functionality.hpp`) | `Functionality`, over `Expanded` |
| subsequential transducers from relations (`ssft.hpp`) | `SparseSsfst`, `Subsets` (the construction), `SubsetMeaning` (what it computes), `DelayBound` (when it gives up) |
| determinization, reversal, minimization (`expanded_fst.hpp`) | `LabelAutomata`, `Determinize`, `DoubleReversal`, `Partition`, `Crochemore` |
| grammars and parsers (`cfg.hpp`, `dpda.hpp`, `parser.hpp`, `earley.hpp`) | `Grammar`, `CfgSets`, `Dpda`, `Ll1`, `ParseTree`, `Parser`, `Conflicts`, `Unambiguous`, `Earley` |
| the word pool (`interning_monoid.hpp`) | `Compaction`, `Pool` (the pool as a state machine), `InterningMonoid` (the object) |
| automata from regular expressions (`fst_from_regex.hpp`) | `Nfa`, `Regexes` (denotation), `Thompson`, `BerrySethi` |
| regular expressions as text (`regex_parser.hpp`) | `RegexText`, `RegexSyntax` (what token lists mean), `RegexGrammar`, `RegexParse`, `RegexReading`, `RegexTerse`, `LeftAssoc` |
| composition (`compose.hpp`) | `Compose`, `ComposeMeaning` |
| total transducers (`total_ssft.hpp`, `compressed_total_ssft.hpp`) | `TotalSsfst`, `CompressedSsfst`, `PackedRefinement` |

`Words` holds the operations of the free monoid and `Counting` the finite-set arguments behind termination.
Algorithms that change things step by step are methods with loops, or classes with the fields of the
original; each is proved against a specification function or predicate, and what that function computes is
tied in turn to a relation defined without it: runs of a transducer (`Subsequential`, `Expanded`), derivations
of a grammar (`Grammar`), moves of a pushdown automaton (`Dpda.Moves`), pieces of text (`RegexText.Renders`),
layers of the expression syntax (`RegexSyntax`), and the denotation of expressions (`Regexes`).

Where the code does less than its comments suggest, the model keeps the code, gives a concrete input that
shows it, and states exactly when it does what is expected:

* `canonicalizeFST` seeds with an empty witness for a dead successor (include/canonical.hpp:141-142), so it
  pushes the longest common prefix of the completions exactly when no arc into a dead state cuts it short
  (`Canonical.PushIsLcpIff`, `Canonical.DeadSuccessorShortensPush`).
* `subsequentializeFST` keeps the output of the empty word as the final output of the initial subset
  (include/ssft.hpp:253-255), which may be entered again (`SubsetMeaning.SameFunctionIff`,
  `SubsetMeaning.ReenteredStartRepeatsOutput`).
* `EarleyParser::recognize` does not look at the origin of the item it accepts on
  (include/earley.hpp:138-142); its answer is characterized exactly (`Earley.Recognize`), and the error is
  shown (`Earley.AcceptsTooMuch`). It is right in particular when the start symbol is never expected after a
  nonempty prefix (`Earley.AcceptsLanguageIfStartComesFirst`), left recursion included.
* The Berry-Sethi union shifts a final state 0 of its right operand (include/fst_from_regex.hpp:98-100) and
  so forgets its empty word (`BerrySethi.UnionIsExactIff`, `BerrySethi.RightStarLosesEmpty`).
* `composeFST` writes the initial output of the second transducer on every drive
  (include/compose.hpp:57-58, 71-75); it composes exactly when that output is empty or nothing is translated
  (`ComposeMeaning.ComputesCompositionIff`, `ComposeMeaning.InitialOutputIsRepeated`). What it translates
  otherwise is given exactly (`ComposeMeaning.ProductIsWoven`).
* The comment on the parser says that it throws if the grammar is not LL(1); a conflict is in fact only
  logged (include/dpda.hpp:144-152), and the first entry stays. There are no conflicts exactly for LL(1)
  grammars (`Parser.ConflictsDecideLl1`). A run that accepts is sound with any table
  (`Ll1.EveryRunIsSound`), but with conflicts it may go on for ever or miss words of the language: on
  S -> S a, S -> a it does so whichever entry stays (`Conflicts.LeftRecursionFails`). Halting on every word and
  reading the whole language are proved where no letter has two different rules to choose from
  (`Ll1.ReadsLanguage`, `Parser.LlParser.GenerateProductions`). This covers LL(1) grammars and more: a rule
  written twice conflicts without harm (`Conflicts.DoubleRuleIsHarmless`). So the absence of conflicts is
  sufficient but not necessary, and that condition is stated in one direction.

## Model

| member | source | states |
|---|---|---|
| `PushGraph.FindWitnesses` | include/canonical.hpp:117-133 | The breadth-first search marks exactly the nodes that reach the sink and gives each one an output that some exit really carries |
| `PushGraph.SeedEstimate` | include/canonical.hpp:135-146 | The seed of a live state is a prefix of what it writes along each of its edges followed by the fixed witness, and no shorter than any word common to all its exits |
| `PushGraph.FrozenEdge` | include/canonical.hpp:163-172 | The invariant behind the greedy freeze: an estimate and the candidate of a successor are prefixes of one word, so the shorter is a prefix of the longer |
| `PushGraph.RefineEstimate` | include/canonical.hpp:163-172 | Taking the gcp with a frozen successor's candidate never drops below the length frozen last, stays above the true longest common prefix and keeps every other estimate valid |
| `PushGraph.FreezeTop` | include/canonical.hpp:157-161 | Popped lengths never decrease, and freezing uses up one of finitely many states |
| `PushGraph.Relax` | include/canonical.hpp:148-174 | The relaxation ends with the longest common prefix over all exits of every state, cycles included |
| `PushGraph.PushedIsOnward` | include/canonical.hpp:176-195 | After pushing, every node's exits share only the empty word |
| `Canonical.CanonicalizeFST` | include/canonical.hpp:80-208 | For every transducer: same input-output pairs, nothing left to push at any state, and `isCanonical` accepts the result exactly when it accepted the dead states of the input |
| `Canonical.Rebuild` | include/canonical.hpp:176-195 | The rebuild takes the word of a state off the front of all that leaves it, after appending the word of each target |
| `Canonical.PushAllowsStripping` | include/canonical.hpp:186-195 | Every quotient of the rebuild strips a genuine prefix |
| `Canonical.RebuiltKeepsMeaning` | include/canonical.hpp:176-205 | Moving words from the front of a state's outputs to the arcs into it, and to the initial output for state 0, keeps every translation in both directions |
| `Canonical.PushIsLcpIff` | include/canonical.hpp:135-146 | The pushed words are the longest common prefixes over all completions if and only if no arc into a dead state cuts short what its source shares; in particular whenever all states are co-accessible |
| `Canonical.PushIsLcp` | include/canonical.hpp:117-174 | Under that condition the word frozen for q is the longest common prefix of all outputs over all completions from q |
| `Canonical.DeadSuccessorShortensPush` | include/canonical.hpp:139-146 | A concrete transducer with a dead successor: less is pushed than all outputs share, and the result is not canonical |
| `Canonical.ResultIsCanonicalIff` | include/canonical.hpp:13-43 | The result passes `isCanonical` exactly when every dead state of the input passed it |
| `Canonical.CanonicalizeIdempotent` | include/canonical.hpp:83-208 | A second run changes no label and not the initial output |
| `Canonical.IsCanonical` | include/canonical.hpp:13-43 | The two nested loops decide whether some state's final output and arc outputs share a nonempty prefix |
| `Canonical.OneStepIsEnough` | include/canonical.hpp:13-43 | What one step out of a co-accessible state shares is shared by all its exits, so the local decision is about whole completions |
| `Functionality.FindCoFinals` | include/functionality.hpp:53-95 | The backward search marks exactly the pairs of states that some common word leads to final states |
| `Functionality.CompletionsAgree` | include/functionality.hpp:125-150 | In a functional relation the delay of a reached pair is exactly what completions on one word make up for |
| `Functionality.FailureIsReal` | include/functionality.hpp:146-150 | Each of the three conditions, when it fails on a co-final pair, comes from a word with two outputs |
| `Functionality.DelaysPredict` | include/functionality.hpp:125-157 | If none fails, the admitted delays balance any two completions, by induction over the word |
| `Functionality.IsFunctional` | include/functionality.hpp:40-183 | Terminates with each pair of states queued at most once, so with at most n * n rounds, and answers true if and only if no word, the empty one included, has two outputs |
| `Subsets.Collect` | include/ssft.hpp:287-303 | The pending map groups all transitions of a subset by letter, with the greatest common prefix of the delayed words of each group |
| `Subsets.ChooseFinal` | include/ssft.hpp:330-360 | A final output is one that is owed; a failure means two final members owe different words and both can go on, or conflicts are not tolerated |
| `Subsets.StripAll` | include/ssft.hpp:306-313 | Stripping the common prefix is always possible, and failure means that a delay exceeds the bound |
| `Subsets.Register` | include/ssft.hpp:315-366 | A subset gets the number it has or the next one, with its final output, and is pushed exactly when it is new |
| `Subsets.Subsequentialize` | include/ssft.hpp:226-385 | Terminates; either the finished machine is right row by row, or the failure reported comes from a real conflict between states that can go on, or from a real spread of outputs |
| `SubsetMeaning.WalkTracks` | include/ssft.hpp:280-370 | After reading u with output o, the subset reached holds exactly the pairs (q, d) with o.d the output of a path on u to q, and the delays of a subset reached by a nonempty word share no prefix |
| `SubsetMeaning.AwayFromStart` | include/ssft.hpp:112-128 | For any input, functional or not, a word whose walk ends outside the initial subset is answered by one of its outputs, and rejected only if it has none |
| `SubsetMeaning.SameFunctionIff` | include/ssft.hpp:252-261 | For a functional input, `f` agrees with the relation on every word if and only if the start is clean: an initial state is final exactly when the empty word has an output, and a start with nonempty output is never re-entered |
| `SubsetMeaning.UnenteredStartIsClean` | include/ssft.hpp:252-261 | The start is clean whenever no arc enters an initial state and finality there matches the empty word's output |
| `SubsetMeaning.ReenteredStartRepeatsOutput` | include/ssft.hpp:252-255 | A concrete functional input whose start is re-entered: the output of the empty word is emitted twice |
| `SubsetMeaning.ConflictIsReal` | include/ssft.hpp:335-352 | The non-functionality error is never raised on a functional input |
| `SubsetMeaning.StrictDecides` | include/ssft.hpp:335-340 | With conflicts not tolerated, finishing shows that every nonempty word has at most one output |
| `SubsetMeaning.DoneMeansBounded` | include/ssft.hpp:306-313 | Finishing shows that no output of a word outruns the common part by more than the delay bound |
| `DelayBound.TameKeepsDelay` | include/ssft.hpp:244-245 | Two words written round a loop again and again either leave the delay between the runs as it is, or drive it beyond every limit |
| `DelayBound.SkipLoop` | include/ssft.hpp:244-245 | When delays are limited, leaving out a loop of two runs on one word changes nothing about the delay at the end |
| `DelayBound.BoundSuffices` | include/ssft.hpp:244-313 | The bound C * n * n is enough: some delay exceeds it if and only if delays exceed every limit, so the construction gives up on a delay only where outputs have unbounded variation, on every input |
| `SparseSsfst.SparseSSFST.F` | include/ssft.hpp:112-128 | The loop over the letters answers as the walk through the transition map does, including the error at a final state without final output |
| `Determinize.PseudoDeterminize` | include/expanded_fst.hpp:180-259 | Terminates with the subset automaton: one state for each subset met, an arc for each label to the set of all successors |
| `DoubleReversal.DeterminizedLanguage` | include/expanded_fst.hpp:180-259 | Determinization keeps the label language |
| `DoubleReversal.DeterminizedIsDeterministic` | include/expanded_fst.hpp:180-259 | The result has one initial state and at most one successor for each label |
| `DoubleReversal.DeterminizedIsAccessible` | include/expanded_fst.hpp:180-259 | Every state of the result is reached from the initial one |
| `LabelAutomata.SameLabelsSameRelation` | include/expanded_fst.hpp:180-298 | Keeping the label language and the outputs of the empty word keeps the relation of the transducer |
| `DoubleReversal.ReverseFst` | include/expanded_fst.hpp:261-292 | All arcs are turned around, initial and final states change places |
| `DoubleReversal.ReversedLanguage` | include/expanded_fst.hpp:261-292 | The reversal accepts the label words backwards, and only those |
| `DoubleReversal.ReversalDistinguishes` | include/expanded_fst.hpp:294-298 | Determinizing the reversal of an accessible pseudo-deterministic automaton leaves no two states with one label language |
| `DoubleReversal.DoubleReversalMinimizes` | include/expanded_fst.hpp:294-298 | Two rounds of reversing and determinizing keep the label language and give an accessible pseudo-deterministic automaton with pairwise different states |
| `DoubleReversal.PseudoMinimizeSlow` | include/expanded_fst.hpp:294-298 | The composition of the four calls does this for every input |
| `DoubleReversal.MinimizedIsMinimal` | include/expanded_fst.hpp:294-298 | No pseudo-deterministic automaton with an initial state and the same label language has fewer states; for the empty language the result is one state without arcs that is not final |
| `Partition.Round` | include/expanded_fst.hpp:382-395 | The new numbers are dense, start at 0 and separate exactly the states with different signatures |
| `Partition.Refine` | include/expanded_fst.hpp:381-398 | Terminates; the last partition is stable, refines the seed and separates only states that a label word separates |
| `Partition.NoGainIsStable` | include/expanded_fst.hpp:394-398 | Stopping when the block count stands still is right: the partition is then closed under successors |
| `Partition.SameBlockIff` | include/expanded_fst.hpp:358-398 | Two states share the final block if and only if no label word separates them |
| `Crochemore.Minimize` | include/expanded_fst.hpp:305-433 | Gives up exactly when a reachable state has two successors for one label; otherwise builds the quotient by the final partition |
| `Crochemore.MergedIffInseparable` | include/expanded_fst.hpp:305-433 | Two reachable states are merged if and only if no label word separates them by being readable, by finality or by final output |
| `Crochemore.MergedKeepsLanguage` | include/expanded_fst.hpp:400-430 | The quotient reads the label words of the input with the same endings and final outputs |
| `Crochemore.MergedKeepsLabels` | include/expanded_fst.hpp:400-430 | The quotient has the label language of the input and its outputs of the empty word, hence its relation |
| `Crochemore.ResultIsReduced` | include/expanded_fst.hpp:305-433 | The states of the quotient are pairwise separable, so a second run merges nothing |
| `Crochemore.FirstBlockIsInitial` | include/expanded_fst.hpp:419-420 | Block 0 holds the first initial state, so state 0 of the result is initial |
| `CfgSets.FindNullables` | include/cfg.hpp:97-132 | Terminates; a symbol or word is marked if and only if it derives the empty word |
| `CfgSets.FindFirsts` | include/cfg.hpp:159-197 | Terminates; a letter is in FIRST of a word if and only if the word derives something that starts with it |
| `CfgSets.FindFollows` | include/cfg.hpp:246-292 | Terminates; a letter is in FOLLOW of a nonterminal if and only if it can come right after it in something derived from the start symbol and eof or from any nonterminal |
| `CfgSets.ReachableFollows` | include/cfg.hpp:246-292 | With all nonterminals reachable this is derivability from the start symbol followed by eof |
| `CfgSets.First` | include/cfg.hpp:226-237 | FIRST of a word is the union over its nullable prefix, which for the exact sets holds the letters that start what the word derives |
| `Dpda.Round` | include/dpda.hpp:51-106 | For every table: nothing is found if and only if no entry applies, that is, has the state, starts the input left and starts the stack; otherwise the entry taken has none before it, reading before not reading and then popping before not popping, and its letter is consumed and its word put in place of its top |
| `Dpda.StepIsMove` | include/dpda.hpp:85-106 | For every table the steps of a run are exactly the moves so described, and from one configuration there is at most one |
| `Parser.ConflictsDecideLl1` | include/parser.hpp:167-187 | No key is ever added twice if and only if no two rules, and no two reasons for one rule, compete for a letter |
| `Parser.LlParser.constructor` | include/parser.hpp:143-190 | The table holds the start entry, one entry per predicted rule and letter, and the reading and popping entries, and nothing else |
| `Parser.CreateParser` | include/parser.hpp:148-163 | Construction fails exactly when a symbol is both terminal and nonterminal |
| `Parser.LlParser.AddTransition` | include/dpda.hpp:144-152 | A key that is taken keeps its entry, and the conflict is counted |
| `Ll1.StepKeepsForm` | include/parser.hpp:165-189 | For any grammar, conflicts or not, each step keeps what was read followed by the stack derivable from the start symbol |
| `Ll1.EveryRunIsSound` | include/dpda.hpp:85-116 | For any grammar, a run of any length that ends in the final configuration at the end of the input has read a word of the language followed by eof |
| `Ll1.StepGoesDown` | include/parser.hpp:317-344 | Where no letter has two different rules to choose from, every step goes down in a well-founded rank, so no run is infinite on any word |
| `Ll1.StepKeepsTrack` | include/parser.hpp:317-344 | On a word of the language such a machine is never stuck before the end, and the stack keeps deriving the rest |
| `Ll1.ReadsLanguage` | include/parser.hpp:317-344 | Where no letter has two different rules to choose from, in particular without conflicts, the machine stops on every word and has read it if and only if the start symbol derives it before eof |
| `Ll1.StopDecides` | include/dpda.hpp:85-116 | A machine that stops has read the word exactly when it stops in the final configuration at the end of the input |
| `Conflicts.LeftConflicts` | include/parser.hpp:167-187 | In the grammar S -> S a, S -> a both rules are predicted for a |
| `Conflicts.LeftRecursionFails` | include/dpda.hpp:144-152 | With either of the two competing entries a word of that language is never read: the run goes on for ever, or, with the entry S -> a, it is stuck |
| `Conflicts.DoubleRuleIsHarmless` | include/dpda.hpp:144-152 | A rule written twice is a conflict as well, yet the machine stops on every word and reads exactly the language |
| `Parser.LlParser.GenerateProductions` | include/parser.hpp:317-349 | With or without conflicts: on a word on which the machine stops, the loop accepts exactly when the machine ends finally at the end of the input, and then the word is in the language before eof and the recorded productions replay it as a leftmost derivation; if no letter has two different rules to choose from, it accepts if and only if the start symbol derives the word |
| `Ll1.ReplayDerives` | include/parser.hpp:336-337 | The recorded productions are a derivation, one step each |
| `ParseTree.MakeParseTree` | include/parser.hpp:199-243 | From productions that replay the word it builds a tree rooted at the start symbol whose nodes follow rules and whose leaves spell the word without eof |
| `Parser.LlParser.Parse` | include/parser.hpp:357-368 | With or without conflicts: a tree is returned if and only if the word is read, and it is a parse tree of the word; if no letter has two different rules to choose from, the words read are those of the language |
| `Unambiguous.LeftmostDerivationIsUnique` | include/parser.hpp:143-190 | In a grammar where no letter has two different rules to choose from, in particular a conflict-free one, a word has only one leftmost derivation |
| `Earley.Closure` | include/earley.hpp:28-83 | Terminates with a set that is closed under prediction and completion, and every item in it describes the word |
| `Earley.FillTable` | include/earley.hpp:85-135 | All item sets are started, scanned and closed |
| `Earley.ItemTheorem` | include/earley.hpp:28-135 | An item is in set i if and only if its rule is expected at its origin and the part before the dot derives the stretch from the origin to i, empty rules included |
| `Earley.Recognize` | include/earley.hpp:85-143 | Accepts if and only if some suffix of the word is derived from a start symbol expected where the suffix begins |
| `Earley.LanguageIsAccepted` | include/earley.hpp:138-142 | Every word of the language is accepted |
| `Earley.AcceptsLanguageIfPrefixesStay` | include/earley.hpp:138-142 | If the start symbol can end whatever it can be expected after, exactly the language is accepted |
| `Earley.AcceptsLanguageIfStartComesFirst` | include/earley.hpp:138-142 | If the start symbol is never expected after a nonempty prefix, exactly the language is accepted |
| `Earley.LeftRecursionIsRight` | include/earley.hpp:138-142 | Left recursion is such a case: on S -> S a, S -> a exactly the language is accepted |
| `Earley.AcceptsLanguageIfStartIsFresh` | include/earley.hpp:138-142 | With the start symbol on no right side exactly the language is accepted |
| `Earley.AcceptsTooMuch` | include/earley.hpp:138-142 | A concrete grammar with the start symbol on a right side: a word outside the language is accepted, because the origin is not looked at |
| `Earley.CompletedStart` | include/earley.hpp:138-142 | A completed start item in the last set witnesses a derivation of the word from its origin on, of the whole word for origin 0 |
| `InterningMonoid.InterningMonoid.AddUnique` | include/interning_monoid.hpp:127-137 | A known word keeps its id; a new one is appended to the buffer under the next id, and no other id changes its word |
| `InterningMonoid.InterningMonoid.AddUniqueInfix` | include/interning_monoid.hpp:139-148 | A slice of the buffer gets an id without copying, unless its word has one |
| `InterningMonoid.InterningMonoid.Mul` | include/interning_monoid.hpp:153-162 | The scratch operand stands for the concatenation of the two words, wherever they are stored |
| `InterningMonoid.InterningMonoid.InvMulOperands` | include/interning_monoid.hpp:228-247 | The slice returned is the left quotient, given that the first word is a prefix of the second |
| `InterningMonoid.InterningMonoid.GcpOperands` | include/interning_monoid.hpp:283-288 | The slice returned is the greatest common prefix of the two words |
| `Words.GcpLen` | include/interning_monoid.hpp:192-198 | The counting loop finds the longest common prefix |
| `InterningMonoid.InterningMonoid.ToId` | include/interning_monoid.hpp:448-455 | Converting an operand gives an id of the operand's word |
| `InterningMonoid.InterningMonoid.Assign` | include/interning_monoid.hpp:457-467 | The left operand dies, the right one gains a copy and keeps its word |
| `InterningMonoid.InterningMonoid.Destroy` | include/interning_monoid.hpp:443-446 | When the last scratch operand dies the scratch buffer is emptied |
| `InterningMonoid.InterningMonoid.C` | include/interning_monoid.hpp:290-295 | The length of the longest word, which is attained |
| `Pool.StepOk` | include/interning_monoid.hpp:127-507 | Every call and every copy, assignment or death of an operand keeps the pool well formed and changes no word of an id or of an operand that stays live |
| `Pool.RunKeepsWords` | include/interning_monoid.hpp:127-507 | Over every run an id keeps its word from the moment it is given out |
| `Pool.RunKeepsIdsApart` | include/interning_monoid.hpp:127-148 | Over every run different ids have different words |
| `Pool.RunKeepsOperands` | include/interning_monoid.hpp:430-507 | Over every run an operand keeps its word while it is live |
| `Pool.RunEmptiesScratch` | include/interning_monoid.hpp:502-507 | Whenever no scratch operand is live the scratch buffer is empty |
| `Compaction.Coalesce` | include/interning_monoid.hpp:344-372 | For overlapping, nested and adjacent slices alike: each keeps its text, and the new buffer has as many bytes as the union of the live slices has positions |
| `Compaction.Rebuild` | include/interning_monoid.hpp:320-395 | The new pool is well formed, with dense ids in the old order and id 0 still empty |
| `Compaction.HandlesKeepWords` | include/interning_monoid.hpp:386-394 | Each handle written back denotes the word it denoted before |
| `Compaction.HandlesKeepOrder` | include/interning_monoid.hpp:329-340 | Renumbering keeps the order of the handles, and 0 stays 0 |
| `InterningMonoid.InterningMonoid.Compact` | include/interning_monoid.hpp:313-395 | The pool and all ranges of handles are rewritten together, every handle keeping its word; scratch operands stay as they are, and no operand into the buffer outlives the call |
| `InterningMonoid.InterningMonoid.Restore` | include/interning_monoid.hpp:407-427 | Reading back what was written restores the pool: the buffer length is recovered as the largest end of a slice |
| `Regexes.DenotesTuple` | include/fst_from_regex.hpp:317-318 | A tuple denotes the one pair of words it is made of |
| `Regexes.DenotesUnion` | include/fst_from_regex.hpp:319-320 | A union denotes what either operand denotes |
| `Regexes.DenotesConcat` | include/fst_from_regex.hpp:321-322 | A concatenation denotes the products of what its operands denote |
| `Regexes.DenotesPlus` | include/fst_from_regex.hpp:325-326 | A plus denotes the products of one factor and what the star denotes |
| `Regexes.DenotesStar` | include/fst_from_regex.hpp:323-324 | A star denotes the pair of empty words and what the plus denotes |
| `Regexes.StarIsLeast` | include/fst_from_regex.hpp:323-324 | It is the least relation with the pair of empty words that is closed under one more factor, so the equations determine the denotation |
| `Thompson.UnionFsa` | include/fst_from_regex.hpp:216-254 | The union construction with its new initial and final state |
| `Thompson.UnionMatches` | include/fst_from_regex.hpp:216-254 | It spells exactly the words of either operand |
| `Thompson.ConcatMatches` | include/fst_from_regex.hpp:256-286 | The concatenation spells exactly the words of the left followed by words of the right operand |
| `Thompson.StarMatches` | include/fst_from_regex.hpp:288-313 | The loop spells exactly the repetitions, by cutting paths at the loop edges; the empty word only for the star |
| `Thompson.MakeFsa` | include/fst_from_regex.hpp:315-330 | For every expression the relation of the automaton is exactly the relation the expression denotes |
| `BerrySethi.UnionLanguage` | include/fst_from_regex.hpp:37-103 | The union has the words of both operands, except that the empty word counts only on the left, because a final state 0 on the right is shifted like any other |
| `BerrySethi.UnionIsExactIff` | include/fst_from_regex.hpp:98-100 | A union is exact if and only if a nullable right operand comes with a nullable left one |
| `BerrySethi.ConcatFsa` | include/fst_from_regex.hpp:105-149 | Every final state of the left operand takes over the edges of the right one's initial state |
| `BerrySethi.KleeneStarFsa` | include/fst_from_regex.hpp:151-182 | Every final state takes over the edges of the initial one |
| `BerrySethi.MakeFsa` | include/fst_from_regex.hpp:184-200 | For every expression the automaton accepts exactly the sequences of tuples that are kept, that is, spelled without taking the empty sequence from the right operand of a union |
| `BerrySethi.KeptIsSpelled` | include/fst_from_regex.hpp:184-200 | Nothing is accepted that the expression does not spell |
| `BerrySethi.SpelledIsKept` | include/fst_from_regex.hpp:184-200 | Everything spelled is accepted as long as operands of concatenations keep their empty sequences and the top does |
| `BerrySethi.KeepsAll` | include/fst_from_regex.hpp:184-200 | Nothing is lost when the top and the operands of concatenations keep their empty words |
| `BerrySethi.NullableLeftIsRight` | include/fst_from_regex.hpp:184-200 | The relation is the denotation whenever each nullable right operand of a union comes with a nullable left one |
| `BerrySethi.PartsKeptWholeIff` | include/fst_from_regex.hpp:98-100 | An expression and all its parts are accepted in full if and only if in every union a nullable right operand comes with a nullable left one |
| `BerrySethi.EmptyLostIff` | include/fst_from_regex.hpp:98-100 | The empty sequence of tuples is accepted correctly if and only if no union at the top loses it |
| `BerrySethi.RightStarLosesEmpty` | include/fst_from_regex.hpp:98-100 | A concrete expression whose automaton misses the pair of empty words |
| `RegexText.Tokenize` | include/regex_parser.hpp:49-76 | Returns the one token list that the text renders, with the end marker behind it: white space may stand between pieces, a quotation stands for its word with escapes undone and cut at a NUL, the keyword for its token, any other character for itself |
| `RegexText.RendersIsLex` | include/regex_parser.hpp:49-76 | Every text, unclosed quotations included, renders exactly one token list, and tokenizing finds it |
| `RegexText.ReadsBackIff` | include/regex_parser.hpp:53-68 | A word printed between quotes is read back as itself if and only if it has no quote, backslash or NUL |
| `RegexText.LexPrint` | include/regex_parser.hpp:148-229 | The tokens of a printed expression are known whatever follows it |
| `RegexGrammar.RegexIsLl1` | include/regex_parser.hpp:78-99 | The grammar of regular expressions is LL(1): its table is built without a conflict |
| `RegexGrammar.PredictsChooses` | include/regex_parser.hpp:78-99 | A rule is predicted only for the letters listed for it, by the general FIRST and FOLLOW theory |
| `RegexParse.MakeParseTree` | include/regex_parser.hpp:105-132 | The recursive walk with its two counters builds the compressed tree that the productions and tokens determine |
| `RegexParse.UnionPiece` | include/regex_parser.hpp:78-283 | For every token list that means an expression by the layers of the syntax there are productions that replay to it in any context, and the walk over them makes a node that is read as that expression |
| `RegexReading.ReplayReads` | include/regex_parser.hpp:105-283 | For every accepted token list the walk stays in range, and the tree is read as an expression that the tokens mean by the layers of the syntax |
| `RegexReading.MeaningIsRead` | include/regex_parser.hpp:78-283 | Every token list that means an expression is accepted and read as that expression: terms joined by plus signs, factors joined by dots, atoms with an optional mark, pairs, single words, the keyword and groups |
| `RegexReading.MeaningIsUnique` | include/regex_parser.hpp:78-99 | A token list means one expression at most |
| `RegexReading.ReadingIsUnique` | include/regex_parser.hpp:105-283 | One accepted token list has one list of productions and is read as one expression |
| `RegexReading.PrintedIsRead` | include/regex_parser.hpp:105-283 | A printed expression means itself |
| `RegexReading.ParseRegex` | include/regex_parser.hpp:316-323 | Succeeds exactly on the texts of the grammar, and returns the left-associated form of the one expression that the text means; in particular parsing undoes printing up to that form |
| `RegexTerse.TerseIsRead` | include/regex_parser.hpp:49-283 | Printing with parentheses only where a layer needs them and with quotes and backslashes escaped, then parsing, gives the expression back up to left association |
| `LeftAssoc.ResultIsNormal` | include/regex_parser.hpp:285-314 | `toLeftAssoc` terminates and, outside plus nodes, leaves no union under the right of a union and no concatenation under the right of a concatenation |
| `LeftAssoc.NormalIsFixed` | include/regex_parser.hpp:285-314 | It changes nothing exactly on expressions of that form |
| `LeftAssoc.KeepsLeaves` | include/regex_parser.hpp:285-314 | The tuples keep their order, and no node is gained or lost |
| `LeftAssoc.KeepsDenotation` | include/regex_parser.hpp:285-314 | The relation denoted is kept |
| `Compose.DriveSecond` | include/compose.hpp:54-89 | The loop answers with what the second transducer, taken as a subsequential transducer, writes along the word from that state, and puts its initial output in front, on every call |
| `Compose.EndingIsRelation` | include/compose.hpp:54-89 | From every state the relation of the second transducer is the function that driving it computes |
| `Compose.ComposeFst` | include/compose.hpp:23-152 | Terminates for every pair of transducers; it fails exactly if a pair is met whose first component has no final output, and otherwise each product state has an arc for every arc of its first component that the second can follow, and no other, and its final output is driven through the second |
| `ComposeMeaning.TranslationDown` | include/compose.hpp:91-152 | Every translation of the product is a value of the composition with the second initial output written before each piece of the run that the second reads, the final output included |
| `ComposeMeaning.TranslationUp` | include/compose.hpp:91-152 | Every value of the composition appears in the product, with the second initial output written in along the run in the same way |
| `ComposeMeaning.ProductIsWoven` | include/compose.hpp:91-152 | The product translates exactly the words woven in this way from the runs of the first transducer, and no others |
| `ComposeMeaning.ComputesCompositionIff` | include/compose.hpp:54-152 | The product relates u to v exactly when the first transducer translates u to some word that the second translates to v, if and only if the second initial output is empty or nothing is translated at all |
| `ComposeMeaning.InitialOutputIsRepeated` | include/compose.hpp:71-75 | Two concrete transducers: the composition answers the empty word with 5, the product with 5 twice |
| `TotalSsfst.TotalSSFST.F` | include/total_ssft.hpp:156-173 | The word returned is the one that the transducer, taken as a subsequential transducer, translates the input to, and there is no other |
| `TotalSsfst.TranslateIsRelation` | include/total_ssft.hpp:142-173 | The relation of a total transducer is a total function on the inputs over its alphabet: initial output, outputs along the input, final output |
| `TotalSsfst.TotalSSFST.CompactLabels` | include/total_ssft.hpp:113-113 | Compaction renumbers every slot in place, changes no word, and keeps no word but the empty one without a slot that holds it |
| `CompressedSsfst.FlagTest` | include/compressed_total_ssft.hpp:80-82 | On 32 bits, the test of the top bit holds exactly when the number has the flag of the model |
| `CompressedSsfst.FlagClear` | include/compressed_total_ssft.hpp:83-83 | On 32 bits, clearing the top bit gives the clean value of the model |
| `CompressedSsfst.FlagSet` | include/compressed_total_ssft.hpp:84-91 | On 32 bits, setting the top bit of a handle below it, or not, gives the packed value of the model, so no bit of the id is lost |
| `CompressedSsfst.CompressedTotalSSFST.AddTransition` | include/compressed_total_ssft.hpp:233-243 | Whether or not the output ends in the letter, the transition read back is the one given, and a word that ends in its letter is never stored with that letter |
| `CompressedSsfst.FlagMeansTrailing` | include/compressed_total_ssft.hpp:111-129 | The flag is set exactly on the outputs that end in the letter read |
| `CompressedSsfst.CompressedTotalSSFST.Transition` | include/compressed_total_ssft.hpp:123-129 | The id returned is that of the full output, and no other transition changes when it is interned |
| `CompressedSsfst.CompressedTotalSSFST.CompactLabels` | include/compressed_total_ssft.hpp:193-210 | Flags survive renumbering: every transition, final output and the initial output keep their words, and no word but the empty one is kept without a slot that holds it |
| `CompressedSsfst.CompressedTotalSSFST.F` | include/compressed_total_ssft.hpp:273-292 | Appending the trailing letter without the pool gives the one word that the transducer, taken as a subsequential transducer, translates the input to |
| `PackedRefinement.Replay` | include/compressed_total_ssft.hpp:77-292 | Over any sequence of builder calls, compactions and interning queries among them, the plain and the compressed transducer describe the same transducer and give the same answers, unless the pool fills up to the flag bit |
| `PackedRefinement.SameAnswers` | include/total_ssft.hpp:128-173 | From then on the two answer every input alike |

## Left out

- InterningMonoid.InterningMonoid.Compact: takes ranges that are different storage; a range given twice, which the source would renumber twice, is not modelled. An operand into the buffer is taken to end with the call, because the bytes move under it.
- Parser.LlParser.GenerateProductions: says nothing of a word on which the loop never stops, which only happens with conflicts (`Ll1.ReadsLanguage`, `Conflicts.LeftRecursionFails`); such runs are covered step by step (`Ll1.EveryRunIsSound`).
- BerrySethi.KeepsAll: goes one way, because what one union loses another part of the expression may supply; what is accepted is given exactly by `BerrySethi.MakeFsa`, and the condition on unions is exact for an expression together with all its parts (`BerrySethi.PartsKeptWholeIff`).
- Compose.ComposeFst: has a second transducer whose states are all final and which may be partial on letters; asking the first for the final output of a non-final state is a failure, without the exception text. The form with a total result type, which needs every product arc, is not separate.
- Crochemore.Minimize: treats a label with two successors as a failure on every build, while the source checks this only in debug builds; what a release build does with such input is not modelled.
- Subsets.Subsequentialize: visits the members of a subset in an arbitrary order, because the source orders them by pool ids; when a conflict is resolved, the theorem covers every choice that the order allows. Its `strict` flag stands for the debug-build condition at include/ssft.hpp:336-340.
- RegexReading.ParseRegex: takes texts of bytes, and stands for the thrown parse error with an empty result; the error message is not built.
- Canonical.CanonicalizeFST: works on words, not on pool ids, and leaves out the variants for input types without initial output.
- Outputs in the transducer modules are words; that ids in a pool stand for fixed words is the subject of `Pool`.
- Sorted vectors and hash sets are sets, hash maps are maps keyed by content; their internals and iteration order are not modelled.
- The flat index of `coFinals` (include/functionality.hpp:55) is a set of pairs.
- `testBoundedVariation` (include/functionality.hpp:224-335): a separate test with heuristic pruning; that the delay bound of the construction suffices is proved (`DelayBound.BoundSuffices`).
- The stack of `makeParseTree` holds values, not owned pointers; `toLeftAssoc` is a function on values, so the rewiring of owned pointers is not captured.
- Parser states are a datatype instead of numbers offset by the token count, so that two states cannot coincide.
- Interleaved aliasing in `own` when a pool copies one of its own scratch words: the source may read moved storage; the model takes the word as a value.
- 32-bit overflow of ids, offsets and state counts, except for bit 31 of compressed handles, which is modelled.
- `removeUpperEpsilonFST`, `expandFST`, trimming, `replace_marker_ssft.hpp`, `lex_traverser.hpp`, `output_fsa.hpp`, `wordset.hpp`, `grammar_factory.hpp`, `ambiguity.hpp`: not part of this model.
- File formats of the transducers, DOT output, printing of tables, timers, progress logging, random generation, `makeAST`, `detectMistake`, `identity`, `optionalReplace`: input, output and display.
