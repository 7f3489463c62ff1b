# Combat platform core, modelled in Dafny

This project models three pieces of a tabletop combat assistant.

- **Term tokenizer** (`TextParser`, text_parser.dfy). A character trie of rules-dictionary terms, and a maximum-munch scan. The scan splits prose into recognised terms and runs of plain text. At every position it takes the longest term that starts there. Otherwise it adds the character to the current text run.
- **Nested tooltip controller** (`RulesTooltip`, rules_tooltip.dfy). A stack of open rule tooltips, one per nesting level. Hovering a term opens a tooltip. A periodic hit test prunes the stack once the pointer has been off the deepest open content for longer than a 100 ms grace period.
- **Combat tracker** (`Combat`, combat.dfy). The roster of units in turn order, the active and selected unit, and the turn and round counters. It covers the demo roster, turn passing with round wrap-around, selection, adding, removing and replacing units, and sorting by initiative.

Each stateful module-level controller or state object of the original is a Dafny class. Its methods are proved against specification functions, and lemmas prove what those functions promise:

- `TermTrie.Parse` equals `Tokenize`, which is proved to be the unique maximum-munch segmentation and to spell its input back.
- `TooltipController.OpenTooltip` and `CheckTooltipHit` equal `Opened` and `Reconciled`/`TargetLevel`. For a level from 0 to the stack height, these keep every record at the index of its level, and the grace-period behaviour is proved over whole runs of events.
- The `CombatTracker` methods equal `DemoLoaded`, `TurnPassed`, `UnitAdded`, `UnitRemoved` and `InitiativeSorted` on a `CombatState` value. A full round of turns is proved to return the turn to the same unit and start exactly one new round. Removing the active unit is proved to hand the turn on as passing the turn would. Adding, removing and sorting are proved to keep the active id on the roster. Sorting gives a permutation in non-increasing initiative order.

`Wrappers.Option` stands in for JavaScript's `null`/`undefined`.

Things the original draws from its environment are arguments in the model:
- the record and unit ids, which are random there;
- the current time (`Date.now()`);
- what lies under the pointer (`document.elementFromPoint` and `closest`), which becomes a `Hit` value.

## Model

| member | source | states |
|---|---|---|
| TextParser.WalkFrom | src/features/KnowledgeBase/utils/textParser.js:19-25 | following characters through existing children only ever reaches a node in the trie |
| TextParser.WalkSnoc | src/features/KnowledgeBase/utils/textParser.js:41-44 | the walk on a string extended by one character is one child step from the walk on the string |
| TextParser.WalkPrefix | src/features/KnowledgeBase/utils/textParser.js:41-44 | every prefix of a string that walks to a node also walks to a node |
| TextParser.WalkNoneExtends | src/features/KnowledgeBase/utils/textParser.js:43 | once a character has no child, no longer string walks anywhere: stopping the scan loses nothing |
| TextParser.WalkSpells | src/features/KnowledgeBase/utils/textParser.js:2-8 | in the trie, the node reached from `n` along `s` spells `n`'s spelling followed by `s` |
| TextParser.EndsAtIffTerm | src/features/KnowledgeBase/utils/textParser.js:18-28 | a string walks to an end node if and only if it is an inserted term |
| TextParser.WalkExtends | src/features/KnowledgeBase/utils/textParser.js:21-23 | adding children never moves an existing walk |
| TextParser.EndsAtExtends | src/features/KnowledgeBase/utils/textParser.js:18-28 | inserting a term keeps every earlier term reachable at an end node |
| TextParser.LongestUpTo | src/features/KnowledgeBase/utils/textParser.js:41-49 | the length found is a term prefix (or 0 for none) and no longer prefix up to the bound is a term |
| TextParser.LongestMatch | src/features/KnowledgeBase/utils/textParser.js:36-49 | the longest term the text starts with never runs past the text |
| TextParser.LongestUpToSettled | src/features/KnowledgeBase/utils/textParser.js:43 | when no longer prefix is a term, looking further does not change the match |
| TextParser.TokenizeIsMaxMunch | src/features/KnowledgeBase/utils/textParser.js:31-67 | the scan's output is a maximum-munch segmentation: longest terms, text only where no term starts, text runs merged |
| TextParser.MaxMunchSpells | src/features/KnowledgeBase/utils/textParser.js:51-64 | any maximum-munch segmentation concatenates back to the text |
| TextParser.MaxMunchCoalesced | src/features/KnowledgeBase/utils/textParser.js:57-62 | a maximum-munch segmentation never has two text tokens in a row |
| TextParser.MaxMunchUnique | src/features/KnowledgeBase/utils/textParser.js:31-67 | a text has exactly one maximum-munch segmentation, so the scan's output is determined by the terms alone |
| TextParser.StartsWithTermOrNot | src/features/KnowledgeBase/utils/textParser.js:51-54 | a segmentation starts with a term token exactly when some term starts the text |
| TextParser.TextRunEnds | src/features/KnowledgeBase/utils/textParser.js:54-64 | a text run that does not reach the end is followed by a position where a term starts |
| TextParser.TokenizeRoundTrip | src/features/KnowledgeBase/utils/textParser.js:31-67 | concatenating the token values gives back the input text |
| TextParser.NoTermsOneText | src/features/KnowledgeBase/utils/textParser.js:54-64 | text in which no term starts anywhere becomes one text token |
| TextParser.FireboltExample | src/features/KnowledgeBase/utils/textParser.js:30-67 | with "fire" and "firebolt", "firebolt damage" yields the term "firebolt" and the text " damage" (longest wins) |
| TextParser.JoinAppendChar | src/features/KnowledgeBase/utils/textParser.js:57-62 | appending a character to the accumulated tokens agrees with prepending it to the rest |
| TextParser.JoinAppendCharToText | src/features/KnowledgeBase/utils/textParser.js:57-59 | the same when the accumulated tokens end in a text token, which takes the character |
| TextParser.JoinAppendCharNewText | src/features/KnowledgeBase/utils/textParser.js:60-62 | the same when the character starts a new text token |
| TextParser.NewTextJoinsRest | src/features/KnowledgeBase/utils/textParser.js:60-62 | a new text token joins the leading text token of the rest |
| TextParser.ExtendsTrans | src/features/KnowledgeBase/utils/textParser.js:18-28 | growing the trie twice is growing it once |
| TextParser.AddChildKeepsTrie | src/features/KnowledgeBase/utils/textParser.js:21-23 | creating a missing child keeps the trie invariant, only adds to the trie, and links the new node under the character |
| TextParser.MarkEndKeepsTrie | src/features/KnowledgeBase/utils/textParser.js:26-27 | marking the node a term walks to keeps the invariant, with the term added to the stored terms |
| TextParser.ScanStep | src/features/KnowledgeBase/utils/textParser.js:44-48 | stepping to the child keeps the walk on the scanned prefix; the child is an end node exactly when that prefix is a term |
| TextParser.ScanStop | src/features/KnowledgeBase/utils/textParser.js:43 | when the next character has no child, no longer prefix is a term |
| TextParser.OnTrackStart | src/features/KnowledgeBase/utils/textParser.js:33-34 | with no tokens emitted at position 0, the emitted tokens joined with the tokens of the rest are the tokens of the text |
| TextParser.OnTrackDone | src/features/KnowledgeBase/utils/textParser.js:35-66 | once the position reaches the end, the emitted tokens are exactly the tokens of the text |
| TextParser.TermStep | src/features/KnowledgeBase/utils/textParser.js:51-53 | emitting the longest term and skipping it keeps the emitted tokens joined with the rest's tokens equal to the whole |
| TextParser.TextStep | src/features/KnowledgeBase/utils/textParser.js:54-64 | adding an unmatched character as text and moving on keeps the same equation |
| TextParser.TermTrie.constructor | src/features/KnowledgeBase/utils/textParser.js:11-16 | the new trie is well formed and holds exactly the listed terms |
| TextParser.TermTrie.Insert | src/features/KnowledgeBase/utils/textParser.js:18-28 | the trie stays well formed; the term is added; its walk ends at an end node carrying it; nodes are only added; re-inserting changes nothing |
| TextParser.TermTrie.MatchAt | src/features/KnowledgeBase/utils/textParser.js:36-49 | the inner walk finds the length of the longest term starting at `i`, and that term |
| TextParser.TermTrie.Parse | src/features/KnowledgeBase/utils/textParser.js:31-67 | the tokens equal `Tokenize` of the text: its unique maximum-munch segmentation (TokenizeIsMaxMunch, MaxMunchUnique), which spells the text back (TokenizeRoundTrip) |
| RulesTooltip.IndexOfId | src/composables/useRulesTooltip.js:97 | the index of the first record with the id, or -1 when no record has it |
| RulesTooltip.Opened | src/composables/useRulesTooltip.js:26-59 | records below `level` are kept; a parent with the same term only cuts the stack back; otherwise the new record is on top; for a level from 0 to the stack height, level indexing is kept |
| RulesTooltip.ReopenReplacesRecord | src/composables/useRulesTooltip.js:33-41 | opening the term already open at `level` drops that record and pushes a fresh one |
| RulesTooltip.TargetLevel | src/composables/useRulesTooltip.js:75-103 | the anchor's level, plus one when the record at that level is for its term; else one past the hovered panel; else 0 |
| RulesTooltip.Reconciled | src/composables/useRulesTooltip.js:106-123 | the stack only shrinks to a prefix; the time is refreshed when the pointer is on the deepest content; a shallower pointer changes nothing within the grace period and, once it is over, cuts the stack back to the target (a negative target counting from the top, as `splice` does) |
| RulesTooltip.HoveredAnchorKeepsItsTooltip | src/composables/useRulesTooltip.js:85-93 | hovering the anchor whose tooltip is open at its level never closes that tooltip |
| RulesTooltip.HoveredPanelSurvives | src/composables/useRulesTooltip.js:95-103 | the pointer inside a panel never closes that panel or a shallower one |
| RulesTooltip.ReplayKeepsLevelIndexed | src/composables/useRulesTooltip.js:26-124 | any run of in-range opens and hit tests keeps every record at the index of its level |
| RulesTooltip.ReplaySnoc | src/composables/useRulesTooltip.js:126-141 | a run extended by one event is that event applied after the run |
| RulesTooltip.StrayWithinGraceKeepsStack | src/composables/useRulesTooltip.js:114-119 | hit tests off the tooltips within the grace period leave stack and time unchanged |
| RulesTooltip.StrayPastGraceClosesAll | src/composables/useRulesTooltip.js:121-122 | the first empty hit test once the grace period is over closes every tooltip |
| RulesTooltip.TooltipController.constructor | src/composables/useRulesTooltip.js:65 | the last valid hit time starts at 0, and the stack, a module-level array declared at line 5, starts empty |
| RulesTooltip.TooltipController.OpenTooltip | src/composables/useRulesTooltip.js:26-59 | the new stack is `Opened` of the old one; the time is untouched |
| RulesTooltip.TooltipController.CheckTooltipHit | src/composables/useRulesTooltip.js:68-124 | the new state is `Reconciled` for the `TargetLevel` of the hit on the old stack |
| Combat.FindIndex | src/composables/useCombat.js:45 | the index of the first unit with the id, or -1 when none has it |
| Combat.Find | src/composables/useCombat.js:19-20 | the first unit on the roster with the id, or nothing when no unit has it |
| Combat.SpliceStart | src/composables/useCombat.js:73 | where `splice` inserts lies within the array (negative indices count from the end) |
| Combat.RemoveAt | src/composables/useCombat.js:107 | one element fewer, and the multiset loses exactly the element at the index |
| Combat.RemoveAtKeeps | src/composables/useCombat.js:107 | `splice(p, 1)` keeps the elements before `p` in place and moves those after it down by one |
| Combat.InsertAt | src/composables/useCombat.js:73 | the unit sits at the splice position, and removing it there gives the old roster back |
| Combat.AddThenRemoveRestores | src/composables/useCombat.js:68-108 | adding a unit with a new id and removing that id gives the roster back |
| Combat.InsertByInitiative | src/composables/useCombat.js:125-132 | inserting into an initiative-ordered list keeps it ordered and adds exactly that unit |
| Combat.HeadBoundsInsertion | src/composables/useCombat.js:125-132 | no unit after the head of an ordered list has higher initiative, even after inserting a lower unit |
| Combat.SortedByInitiative | src/composables/useCombat.js:114-135 | the result is in non-increasing initiative order and is a permutation of the roster |
| Combat.SortedKeepsOrderedRoster | src/composables/useCombat.js:34 | a roster already in initiative order is left unchanged by the sort |
| Combat.Advance | src/composables/useCombat.js:45-52 | the next index is the current plus one modulo the roster size, and it wraps exactly from the last unit |
| Combat.WrapNext | src/composables/useCombat.js:94 | the index after `k` modulo the length is `k + 1`, or 0 after the last index |
| Combat.Turns | src/composables/useCombat.js:42-57 | repeated turns stay on a valid index, and at least one turn lands on a unit |
| Combat.TurnsWithinRound | src/composables/useCombat.js:46-52 | turns that do not pass the last unit move forward one by one and start no new round |
| Combat.TurnsCompose | src/composables/useCombat.js:42-57 | `a` turns then `b` turns are `a + b` turns, with their round counts added |
| Combat.FullRound | src/composables/useCombat.js:42-57 | after as many turns as there are units, the index is back where it started and exactly one round has begun |
| Combat.DemoRosterOrdered | src/composables/useCombat.js:26-31 | the demo roster is Lae'zel first and already in non-increasing initiative order |
| Combat.DemoRosterSorted | src/composables/useCombat.js:26-34 | sorting the demo roster by initiative leaves it as listed |
| Combat.FindIndexOfUnique | src/composables/useCombat.js:45 | with unique ids, a unit's id finds that very unit |
| Combat.DemoLoaded | src/composables/useCombat.js:23-40 | a non-empty roster is left alone; an empty one gets the four demo units in initiative order, the first active and selected, turn 1 of round 1, with the active unit on the roster |
| Combat.TurnPassed | src/composables/useCombat.js:42-57 | nothing on an empty roster; otherwise the unit after the active one (the first after the last, or when the active id is unknown) becomes active and selected, the turn count grows by one and the round count exactly on wrapping |
| Combat.TurnsTakenFollowTurns | src/composables/useCombat.js:42-57 | with unique ids, `k` turns move the active unit as the index arithmetic `Turns` does and add its rounds, with `k` more turns counted |
| Combat.FullRoundOfTurns | src/composables/useCombat.js:42-57 | with unique ids and the active unit on the roster, a full round of turns returns the turn to the same unit and counts exactly one new round |
| Combat.UnitAdded | src/composables/useCombat.js:68-81 | appended for index -1, spliced in otherwise, adding exactly that unit; it becomes active and selected when the active id is null or empty; counters unchanged |
| Combat.AddKeepsActiveOnRoster | src/composables/useCombat.js:68-81 | adding a unit keeps the active id naming a unit on the roster |
| Combat.UnitRemoved | src/composables/useCombat.js:83-108 | an unknown id changes nothing; otherwise the first such unit is removed; removing the active unit hands the turn to the unit after it (none if it was alone) and moves the selection only if it was on that unit |
| Combat.RemovingActivePassesTurn | src/composables/useCombat.js:90-104 | removing the active unit makes active the unit that passing the turn would have chosen |
| Combat.RemoveKeepsActiveOnRoster | src/composables/useCombat.js:83-108 | removing a unit keeps the active id naming a unit on the roster, whatever the ids |
| Combat.InitiativeSorted | src/composables/useCombat.js:114-135 | the roster becomes a permutation of itself in non-increasing initiative order; nothing else changes |
| Combat.SortKeepsActiveOnRoster | src/composables/useCombat.js:114-135 | sorting keeps the active id naming a unit on the roster |
| Combat.CombatTracker.constructor | src/composables/useCombat.js:9-15 | no units, no active or selected unit, turn 0, round 1 |
| Combat.CombatTracker.ActiveUnit | src/composables/useCombat.js:19 | the first roster unit with the active id, or nothing when none has it |
| Combat.CombatTracker.SelectedUnit | src/composables/useCombat.js:20 | the first roster unit with the selected id, or nothing when none has it |
| Combat.CombatTracker.InitDemoData | src/composables/useCombat.js:23-40 | the new state is `DemoLoaded` of the old one |
| Combat.CombatTracker.NextTurn | src/composables/useCombat.js:42-57 | the new state is `TurnPassed` of the old one |
| Combat.CombatTracker.SelectUnit | src/composables/useCombat.js:59-62 | only the selection changes, to the given id or the given unit's id |
| Combat.CombatTracker.BackToActive | src/composables/useCombat.js:64-66 | only the selection changes, to the active id |
| Combat.CombatTracker.AddUnit | src/composables/useCombat.js:68-81 | the new state is `UnitAdded` of the old one |
| Combat.CombatTracker.RemoveUnit | src/composables/useCombat.js:83-108 | the new state is `UnitRemoved` of the old one |
| Combat.CombatTracker.SetUnits | src/composables/useCombat.js:110-112 | only the roster changes, to the given list |
| Combat.CombatTracker.SortByInitiative | src/composables/useCombat.js:114-135 | the roster becomes a permutation of itself in non-increasing initiative order; nothing else changes |

The duplicate-open check in `openTooltip` is dead code. Its comments say that it prevents a duplicate when the term is already open (useRulesTooltip.js:37 and 40). But the function first cuts the stack at `level` (lines 33-35) and only then reads `tooltipStack[level]` (line 38). By then no record exists at that index, so the check never succeeds. The tooltip and everything nested in it are closed, and only the tooltip is reopened, with a fresh id. `OpenTooltip` keeps the dead check as written, and `RulesTooltip.ReopenReplacesRecord` proves the replacing behaviour.

`openTooltip` does not clamp `level` (lines 33-35 and 52-58). Opening at a negative level, or above the stack height, puts the new record at an index other than its level, and the model does the same: `Opened` promises level indexing only for a level from 0 to the stack height.

## Left out

- DOM hit testing (`elementFromPoint`, `closest`, `dataset`, `parseInt`) is reduced to a `Hit` value: the term anchor's level (absent for NaN) and term, and the enclosing panel's id.
- `Date.now()`, the `mousemove` listener, the `requestAnimationFrame` loop, `startTracking`, `init` and the `isTracking` flag are not modelled. The time is an argument of `CheckTooltipHit`, and a run of calls is a `Replay` of events.
- `registerTooltipEl` and `unregisterTooltipEl` fill a map of DOM elements that the hit test never reads. They are not modelled.
- Random ids (`Math.random` in `openTooltip` and in the unit model's `generateId`) are arguments. The operations do not assume that they are unique.
- Combat.FullRoundOfTurns: assumes unique unit ids, which the original only makes likely by drawing them at random. With a repeated id, `findIndex` finds the first unit carrying it, and the turn can skip ahead.
- Combat.TurnsTakenFollowTurns: assumes unique unit ids, for the same reason.
- Combat.CombatTracker.InitDemoData: assigns the demo roster as listed instead of sorting it. `Combat.DemoRosterSorted` proves that the sort leaves this roster unchanged.
- TextParser.TermTrie.Parse: the merge of an unmatched character into the last text token is the `AppendChar` function, not a branch on the token list inside the loop. It yields the same tokens.
- Combat.CombatTracker.SortByInitiative: orders equal initiatives deterministically. The original shuffles ties with `Math.random`, so the contract fixes only the order by initiative and the permutation.
- Vue reactivity, `computed` caching and the module-level singleton state are not modelled. `ActiveUnit` and `SelectedUnit` are functions of the current state.
- The rules-dictionary loader (useRulesDictionary.js) that feeds the trie is not part of this model.
- TextParser.TermTrie.Parse: JavaScript strings are UTF-16. `insert` iterates code points while `parse` indexes code units, so a term with a character outside the Basic Multilingual Plane behaves differently there. The model treats both as the same sequence of `char`.
- Trie nodes are objects linked by reference in the original. Here they are entries of a node table, and a reference is an index.
- A `null` `text` or `terms` argument is not modelled. The empty string and the empty list, which the original treats the same way, are.
- Unit ability scores, spell slots, custom properties and statuses are not modelled, because no modelled operation reads them.
- `selectUnit` with an argument that is neither a string nor a unit is not modelled.
