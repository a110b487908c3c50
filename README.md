# AgentOccam decision core in Dafny

This project models the deterministic decision logic of the AgentOccam web
agent. Each language-model response is treated as an input string. The
following parts are modelled:

- **The plan tree.** `PlanTreeNode` is modelled as the class
  `PlanTrees.PlanTree`. Goal nodes live in an arena and are referred to by
  position. Child lists and a parent list link the nodes. Nodes are never
  removed.
- **The actor's planning commands.** The actor's `branch` and `prune`
  commands and its `planning` dispatcher are in `Actors.Actor`. That class
  owns the plan tree, the active node, the note buffer and the interaction
  history.
- **The action grammar.** `ActionGrammar` covers splitting an action text
  into commands, `is_valid_action` and `are_valid_actions`, `is_planning`,
  `parse_plan`, note extraction, `go_home` and
  `parse_actions_to_element_ids`. Each regular expression of the source is
  written out as a function over positions in the text.
- **Labelled fields.** `Fields` covers the labelled fields of a model
  response (`parse_elements`, and the REASON and ACTION fields).
- **The judge.** `Judges` covers the judge that picks one proposal among
  several actor runs. The random shuffle is a permutation parameter, and the
  model's verdict is its response text.
- **The interaction history.** `HistoryStore.History` holds one list per
  documented field. The step counter is the number of recorded actions.
- **Message-list normalisation.** `Messages` covers `prune_message_list` and
  `merge_adjacent_text`. Text items and other items are kept as a stream of
  characters and items.
- **The response parsers of `webagents_step/utils/llm.py`.** `LlmParsers`
  covers filling the prompt template, unquoting a `type` action and
  `parse_action_reason`.

`Text` holds the string operations the source takes from Python:
`strip`, `in`, `replace`, `split`, `join` and `startswith`. Whitespace
(`IsSpace`) is the set that Python's `str.isspace`, `str.strip` and `\s`
use among the code points up to U+00FF: space, tab, line feed, carriage
return, vertical tab, form feed, U+001C to U+001F, U+0085 and U+00A0.
Digits, capital letters and `str.upper` are ASCII. `Wrappers` holds `Option`.

## Model

| member | source | states |
|---|---|---|
| PlanTrees.PlanTree.constructor | AgentOccam/AgentOccam.py:202-215 | A new tree holds only its root, with no children and no parent. |
| PlanTrees.PlanTree.AddChild | AgentOccam/AgentOccam.py:223-225 | The new node is the last child of p and its parent is p. The other child lists are unchanged, and the links stay consistent. |
| PlanTrees.PlanTree.Reset | AgentOccam/AgentOccam.py:217-221 | Only node i changes. It becomes visible, and its notes, hints and steps are emptied. Its resume reasons are kept. |
| PlanTrees.PlanTree.SearchNodeById | AgentOccam/AgentOccam.py:227-234 | The result is the first visible node with that plan number in the pre-order walk, invisible subtrees included. None means no visible node anywhere carries the number. |
| PlanTrees.FindIsFirstMatch | AgentOccam/AgentOccam.py:227-234 | The recursive search (the node, then each child's subtree) equals the first match along the pre-order walk. |
| PlanTrees.FindInIsFirstMatch | AgentOccam/AgentOccam.py:230-233 | The loop over the children finds the first match along the concatenated walks of their subtrees. |
| PlanTrees.Reachable | AgentOccam/AgentOccam.py:223-225 | Every node of the arena is reached by the pre-order walk from the root. |
| PlanTrees.ForestAppend | AgentOccam/AgentOccam.py:236-244 | The walk over two runs of children is the walk over the first run followed by the walk over the second. |
| PlanTrees.InForest | AgentOccam/AgentOccam.py:236-244 | A node is visited by the walk over a child list exactly when it lies in the subtree of one of those children. |
| PlanTrees.SubtreeTransitive | AgentOccam/AgentOccam.py:236-244 | A subtree of a node in the subtree of i lies inside the subtree of i. |
| PlanTrees.ParentInSubtree | AgentOccam/AgentOccam.py:236-244 | A node in the subtree of i other than i has its parent in that subtree too. |
| PlanTrees.SubtreeByParent | AgentOccam/AgentOccam.py:236-244 | Membership in the subtree of i is decided by following parent links: j is inside exactly when j is i or its parent is inside. |
| PlanTrees.SiblingOutsideSubtree | AgentOccam/AgentOccam.py:659-666 | A sibling of i is not in the subtree of i. |
| PlanTrees.LaterSiblingsOutside | AgentOccam/AgentOccam.py:659-666 | The siblings after i are neither i nor inside the subtree of i. |
| PlanTrees.FirstMatchAppend | AgentOccam/AgentOccam.py:230-233 | Searching two walks one after the other gives the first walk's match, else the second's. |
| PlanTrees.StepsAlongElements | AgentOccam/AgentOccam.py:656-657 | A step is gathered exactly when some visited node started at it or recorded it. |
| PlanTrees.StepsAlongSameSteps | AgentOccam/AgentOccam.py:668-670 | Gathering steps reads only each node's step and steps taken. |
| PlanTrees.Insert | AgentOccam/AgentOccam.py:671 | Inserting into an ascending list keeps it ascending. The result holds exactly the old elements and the new one. |
| PlanTrees.IncreasingUnique | AgentOccam/AgentOccam.py:671 | Two ascending, duplicate-free lists with the same elements are equal, so `sorted(set(...))` is determined by the set. |
| PlanTrees.PlanTree.HideSubtree | AgentOccam/AgentOccam.py:236-244 | `traverse(set_invisible)` hides exactly the nodes of the subtree of i. Links and every other node field are unchanged. |
| PlanTrees.PlanTree.HideChildren | AgentOccam/AgentOccam.py:243-244 | The loop over the children hides exactly the walk over their subtrees. |
| PlanTrees.HidesCompose | AgentOccam/AgentOccam.py:236-244 | Hiding one list of nodes and then another hides both lists and changes nothing else. |
| PlanTrees.HidesStep | AgentOccam/AgentOccam.py:243-244 | Hiding one more child's subtree extends the hidden part by that child's walk. |
| PlanTrees.PlanTree.HideOne | AgentOccam/AgentOccam.py:666 | One sibling becomes invisible, and nothing else changes. |
| PlanTrees.PlanTree.HideAfter | AgentOccam/AgentOccam.py:660-666 | The sibling loop hides exactly the entries after i in the child list. |
| PlanTrees.PlanTree.HideLaterSiblings | AgentOccam/AgentOccam.py:659-666 | For a node other than the root, exactly its later siblings are hidden. |
| PlanTrees.PlanTree.Restart | AgentOccam/AgentOccam.py:667-672 | The subtree of i is hidden and i is reset. The step list of i is rebuilt, ascending and duplicate-free, from the steps gathered over its subtree after the reset, so its own earlier steps taken are dropped. The reason is appended to its resume reasons. |
| PlanTrees.PlanTree.Prune | AgentOccam/AgentOccam.py:653-672 | After `prune_planning` the tree is in the state `Pruned` describes. The links are unchanged, and so are the plan numbers, levels and the url of i. |
| PlanTrees.PruneScope | AgentOccam/AgentOccam.py:658-668 | After a prune: i is visible with no notes or hints; every proper descendant and every later sibling is invisible; earlier siblings and every node outside the subtree and the later siblings are unchanged. |
| PlanTrees.PruneSteps | AgentOccam/AgentOccam.py:668-672 | After a prune, the steps taken by i are ascending. A step is in them exactly when it is the step of a node of the subtree or a step taken by a proper descendant. The reason is appended to the resume reasons. |
| PlanTrees.StepGathered | AgentOccam/AgentOccam.py:668-670 | With i reset first, a step is gathered over the subtree exactly when a subtree node started at it or a proper descendant recorded it. |
| PlanTrees.PrunedStages | AgentOccam/AgentOccam.py:659-672 | The sibling stage followed by the restart stage gives the state `Pruned` describes. |
| PlanTrees.PrunedShape | AgentOccam/AgentOccam.py:653-672 | A prune keeps every node's plan number and level. |
| PlanTrees.LinkedAddChild | AgentOccam/AgentOccam.py:223-225 | Adding a new last child at the end of the arena keeps the links consistent: parents come first, each node is listed once by its parent, and child lists have no duplicates. |
| Actors.GotoIsValid | AgentOccam/AgentOccam.py:673 | The `goto [url] [1]` directive has command word `goto` and is always accepted by the validator. |
| Actors.PlanningCases | AgentOccam/AgentOccam.py:682-702 | Both ways: an action is not a planning command exactly when it is empty or starts with no configured planning command. It is rejected exactly when it does not parse, names no visible node, or is neither `prune` nor `branch`. A prune or branch acts on the first visible pre-order node with the parsed plan number. |
| Actors.PruneCommandOutcome | AgentOccam/AgentOccam.py:682-690 | A well-formed `prune [d] [reason]` that names a visible node prunes, with that reason. |
| Actors.ShapeKeepsInvariants | AgentOccam/AgentOccam.py:653-672 | Keeping plan numbers and levels keeps the numbering and level invariants. |
| Actors.NotesStep | AgentOccam/AgentOccam.py:838-849 | One more piece adds a note entry and replaces the buffer when it holds `note [`. Otherwise it is kept among the other pieces. |
| Actors.NotesPartition | AgentOccam/AgentOccam.py:838-849 | Every piece becomes either a note entry or another piece. The other pieces are exactly those without `note [`. |
| Actors.SingleNote | AgentOccam/AgentOccam.py:840-846 | A lone `note [x]` records `STEP <n>: x`, leaves x in the note buffer and keeps no other piece. |
| Actors.Actor.KeywordsWellFormed | AgentOccam/AgentOccam.py:837 | The split keywords (planning, navigation and `goto`) are well formed whenever the configured commands are. |
| Actors.Actor.constructor | AgentOccam/AgentOccam.py:1322-1334 | The tree holds only the root: plan number 0, level 0, step 0, text `Find the solution to "<objective>"`. The root is active, every default and configured history field is empty, so the field lengths are equal. |
| Actors.Actor.Prune | AgentOccam/AgentOccam.py:653-675 | Node i is pruned as `Pruned` describes, becomes active, and the result is `goto [<url of i>] [1]`. |
| Actors.Actor.Branch | AgentOccam/AgentOccam.py:677-680 | Exactly one node is added, as the last child of p, with parent p. Its plan number is the active node's plus one, its level is p's plus one, and its step is the current step. It becomes active. |
| Actors.Actor.Planning | AgentOccam/AgentOccam.py:682-702 | The state after `planning` follows its outcome: a non-planning action records the step on the active node; a rejected command adds one corrective note and nothing else; a prune or branch is carried out. Only a prune yields a directive. |
| Actors.Actor.TakeNote | AgentOccam/AgentOccam.py:834-853 | For an action containing `note [`, each note piece is recorded on the active node and the last one is kept in the buffer. The result is the action, or else the other pieces joined by newlines. Any other action leaves the state unchanged and is returned as is. |
| Actors.Actor.RecordNotes | AgentOccam/AgentOccam.py:838-849 | The loop adds exactly the note entries of the pieces to the active node, leaves the last note in the buffer, and returns the other pieces in order. |
| Actors.Actor.AddNote | AgentOccam/AgentOccam.py:843 | One entry is appended to the active node's notes, and nothing else changes. |
| Actors.Actor.RecordStep | AgentOccam/AgentOccam.py:700-701 | The current step is appended to the active node's steps taken, and nothing else changes. |
| Actors.Actor.FinalizeAction | AgentOccam/AgentOccam.py:1002-1013 | The action is kept. The navigation directive is the `go_home` one when present, otherwise the prune's. Any directive is a `goto` command. |
| ActionGrammar.PieceEnd | AgentOccam/AgentOccam.py:148 | The lazy group stops at the first position where a newline and a keyword, or the end, follows. |
| ActionGrammar.Pass | AgentOccam/AgentOccam.py:145-151 | One round consumes text exactly when it finds a piece. Every piece starts with a keyword. |
| ActionGrammar.PassEmpty | AgentOccam/AgentOccam.py:145-153 | A round finds nothing exactly when no remaining keyword is a prefix of the text. |
| ActionGrammar.ActionPieces | AgentOccam/AgentOccam.py:141-154 | Every piece of the split starts with a keyword. |
| ActionGrammar.ActionPiecesEmpty | AgentOccam/AgentOccam.py:141-154 | The split is empty exactly when the text starts with no keyword. |
| ActionGrammar.KeywordPass | AgentOccam/AgentOccam.py:145-151 | The inner loop computes one round of the split. |
| ActionGrammar.ParseStrToActionList | AgentOccam/AgentOccam.py:141-154 | The while loop yields the pieces of the split. |
| ActionGrammar.PassJoin | AgentOccam/AgentOccam.py:145-151 | One round over newline-joined split pieces takes a run of leading pieces whole and leaves the join of the others. It takes at least one piece when a remaining keyword starts the first. |
| ActionGrammar.ActionPiecesRoundTrip | AgentOccam/AgentOccam.py:141-154 | Splitting newline-joined pieces gives the pieces back, when each is stripped, starts with a keyword, has no newline followed by a keyword, and, unless last, is longer than any keyword it starts with. |
| ActionGrammar.Stipulated | AgentOccam/AgentOccam.py:137-139 | Every match starts with the keyword. |
| ActionGrammar.StipulatedEmpty | AgentOccam/AgentOccam.py:137-139 | The search finds nothing exactly when the keyword does not occur in the rest of the text. |
| ActionGrammar.StipulatedRoundTrip | AgentOccam/AgentOccam.py:137-139 | On newline-joined split pieces in which kw occurs only at a piece's start, `parse_stipulated_action_list` returns exactly the pieces that start with kw, in order. |
| ActionGrammar.StripKeepsKeyword | AgentOccam/AgentOccam.py:139 | Stripping a match keeps the trimmed keyword at its start. |
| ActionGrammar.KeywordHasCommandWord | AgentOccam/AgentOccam.py:370-374 | A piece of the split always has a command word, so the index error of the source cannot occur on it. |
| ActionGrammar.CommandWordOfBracketed | AgentOccam/AgentOccam.py:370-374 | A text that starts with `w [` has command word w. |
| ActionGrammar.SearchBracketedId | AgentOccam/AgentOccam.py:377 | The search returns the leftmost match of `w ?\[(\d+)\]`. None means no match at any index. |
| ActionGrammar.BracketedIdFound | AgentOccam/AgentOccam.py:377 | A written `w [digits]` is found by the search. |
| ActionGrammar.BracketedIdWritten | AgentOccam/AgentOccam.py:377 | `w [digits]` matches where it is written, with exactly those digits. |
| ActionGrammar.TypeDefaulted | AgentOccam/AgentOccam.py:385-386 | The result ends in `[0]` or `[1]` and extends the action. |
| ActionGrammar.ClickValidity | AgentOccam/AgentOccam.py:376-383 | `click [d]` is valid exactly when d occurs in the observation. |
| ActionGrammar.TypeParsed | AgentOccam/AgentOccam.py:385-399 | `type [d] [x]` gets ` [1]` appended and types x followed by a newline into element d. |
| ActionGrammar.TypeWithFlag | AgentOccam/AgentOccam.py:388-395 | The `type` pattern on `type [d] [x] [1]` yields d, x and the flag `1`. |
| ActionGrammar.EnterFlagTail | AgentOccam/AgentOccam.py:388-390 | The greedy text group ends just before the appended ` [1]` flag. |
| ActionGrammar.TypeValidity | AgentOccam/AgentOccam.py:384-402 | `type [d] [x]` is valid exactly when d occurs in the observation. |
| ActionGrammar.FixedCommandValidity | AgentOccam/AgentOccam.py:369-418 | A command other than `click` and `type` is accepted exactly when it is one of `go_back`, `go_home`, `note`, `stop`, `branch`, `prune`, `goto` and `scroll`, whatever the observation. |
| ActionGrammar.AreValidActions | AgentOccam/AgentOccam.py:420-427 | The result is false when the split yields no piece. Otherwise it is true exactly when every piece is valid. |
| ActionGrammar.AllPiecesValid | AgentOccam/AgentOccam.py:424-427 | The loop returns true exactly when every piece is valid. |
| ActionGrammar.CheckPiece | AgentOccam/AgentOccam.py:425 | One call decides the validity of one piece. |
| ActionGrammar.IsPlanning | AgentOccam/AgentOccam.py:356-360 | The result is the first configured planning command the action starts with. None means it starts with none of them. |
| ActionGrammar.LastClose | AgentOccam/AgentOccam.py:643 | The greedy `(.+)\]` ends at the last `]` before the bound. |
| ActionGrammar.ParsePlanRoundTrip | AgentOccam/AgentOccam.py:640-651 | `kind [d] [content]` parses back to kind, the value of d, and content. |
| ActionGrammar.ParsePlanNoBracket | AgentOccam/AgentOccam.py:640-646 | A planning action without any `[` does not match, so `parse_plan` raises. |
| ActionGrammar.GoHomeIsValidGoto | AgentOccam/AgentOccam.py:704-707 | A directive is returned exactly when the action mentions `go_home`. It is `goto [<homepage>] [1]`, a valid `goto` command. |
| ActionGrammar.NoteFound | AgentOccam/AgentOccam.py:840-841 | An action containing `note [` always matches the note pattern, so `.group(1)` never fails. |
| ActionGrammar.NoteTextRoundTrip | AgentOccam/AgentOccam.py:841-843 | `note [x]` records exactly x. |
| ActionGrammar.PieceIds | AgentOccam/AgentOccam.py:774-830 | One piece yields at most one element id. |
| ActionGrammar.PieceIdsBracketed | AgentOccam/AgentOccam.py:775-795 | A piece that strips to `click [d]...` or `hover [d]...` yields the id d. |
| ActionGrammar.PieceIdsOtherCommand | AgentOccam/AgentOccam.py:775-826 | A piece that strips to `w [...` for a command word w other than `click`, `hover` and `type` yields no id and no error. |
| ActionGrammar.PieceIdsType | AgentOccam/AgentOccam.py:796-811 | A single-line `type [d] [x]` gets ` [1]` appended and yields the id d. |
| ActionGrammar.PieceIdsMultiLineType | AgentOccam/AgentOccam.py:796-805 | A `type [d] [x]` whose text x spans lines and holds no bracket does not match the pattern without DOTALL, so its handling raises. |
| ActionGrammar.SingleLineTypeFound | AgentOccam/AgentOccam.py:800-802 | Without DOTALL, the search on a single-line `type [d] [x] [1]` finds d, x and the flag `1`. |
| ActionGrammar.TextEndSingleLine | AgentOccam/AgentOccam.py:800-802 | On a single line, the text group ends at the same place with and without DOTALL, unless it would be empty. |
| ActionGrammar.SearchType | AgentOccam/AgentOccam.py:388-390 | The result is a match of the `type` pattern at some index. None means no index matches. |
| ActionGrammar.FirstIds | AgentOccam/AgentOccam.py:773-832 | At most one id is returned. None is returned when every piece fails. |
| ActionGrammar.ParseActionsToElementIds | AgentOccam/AgentOccam.py:769-832 | The ids are those of the first stipulated navigation piece whose handling does not raise. At most one id is returned. |
| ActionGrammar.CollectStipulated | AgentOccam/AgentOccam.py:770-772 | The first loop collects the stipulated pieces of every navigation command, in order. |
| ActionGrammar.FirstPieceIds | AgentOccam/AgentOccam.py:773-832 | The second loop returns the ids of the first piece whose handling does not raise, and nothing when every piece raises. |
| Fields.FieldEnd | AgentOccam/AgentOccam.py:129 | The lazy value ends at the first position from which whitespace and a header, or the end, follow. |
| Fields.SearchLabel | webagents_step/utils/llm.py:77 | The search finds the leftmost position of any label, with the first alternative tried there. |
| Fields.SearchLabelFirst | webagents_step/utils/llm.py:77 | A label with none before it is the one the search finds. |
| Fields.Field | webagents_step/utils/llm.py:73 | None exactly when no label occurs in the text. |
| Fields.FieldShape | webagents_step/utils/llm.py:73-79 | A field value has no surrounding whitespace, and no header begins inside it. |
| Fields.CapitalFieldHasNoCapitalLine | webagents_step/utils/llm.py:73 | A field cut at the next capitalised line holds no capitalised line. |
| Fields.FieldStripped | AgentOccam/AgentOccam.py:129-130 | `strip()` on a field value changes nothing. |
| Fields.FieldRoundTrip | webagents_step/utils/llm.py:73-79 | A one-line value after the first label, followed by the end or a header line, reads back as itself. |
| Fields.FirstInt | AgentOccam/AgentOccam.py:1285 | The number is absent exactly when the text holds no digit. |
| Fields.FirstIntRoundTrip | AgentOccam/AgentOccam.py:1285 | The first number written in a text is the one read back. |
| Fields.ParseElements | AgentOccam/AgentOccam.py:125-131 | Every requested key gets an entry, and each entry has no surrounding whitespace. |
| Judges.FlattenedMembers | AgentOccam/AgentOccam.py:1191-1202 | An entry is in the flattened list exactly when it expands from some proposal. |
| Judges.ShufflePermutes | AgentOccam/AgentOccam.py:1203 | The shuffle loses, duplicates and invents no entry. |
| Judges.PickSameMultiset | AgentOccam/AgentOccam.py:1203 | Picking along two index lists that hold the same positions yields the same entries. |
| Judges.FlattenActionElementList | AgentOccam/AgentOccam.py:1191-1205 | The result is the shuffled flattening: one entry per candidate of a proposal that has candidates, or the proposal itself. It is a permutation of the flattened list. |
| Judges.AppendCandidates | AgentOccam/AgentOccam.py:1196-1199 | The inner loop appends one entry per candidate, in order. |
| Judges.ActionsOfMembers | AgentOccam/AgentOccam.py:1234-1236 | An action is in the `seen` set exactly when some kept proposal carries it. |
| Judges.DedupSnoc | AgentOccam/AgentOccam.py:1243-1247 | One more proposal is kept exactly when its action is non-empty and not yet seen. |
| Judges.DedupProperties | AgentOccam/AgentOccam.py:1239-1248 | The kept proposals come from the list, have distinct non-empty actions, and cover every non-empty action of the list. |
| Judges.DedupEmpty | AgentOccam/AgentOccam.py:1239-1248 | A list without a non-empty action deduplicates to nothing. |
| Judges.DedupIdempotent | AgentOccam/AgentOccam.py:1239-1248 | Deduplicating twice is deduplicating once. |
| Judges.DeduplicateActionElementList | AgentOccam/AgentOccam.py:1239-1248 | The loop keeps the first proposal of each non-empty action, in order. |
| Judges.SortPieces | AgentOccam/AgentOccam.py:1225-1231 | Stops start with `stop [`, notes with `note [`, and the rest with neither. |
| Judges.SortPiecesPartition | AgentOccam/AgentOccam.py:1225-1231 | The three lists together hold exactly the pieces, as a multiset. |
| Judges.SortCommands | AgentOccam/AgentOccam.py:1225-1231 | The inner loop sorts the pieces into stops, notes and the rest. |
| Judges.StopListMembers | AgentOccam/AgentOccam.py:1226-1227 | A pair is in the stop list exactly when it is a stop command of the candidate at that position. |
| Judges.DeduplicateStrict | AgentOccam/AgentOccam.py:1214-1237 | The loop returns each candidate's joined notes, every tagged stop command, and the deduplicated candidates with their notes and stops removed. |
| Judges.SplitCandidate | AgentOccam/AgentOccam.py:1221-1232 | One candidate yields its notes entry, its tagged stops and the candidate stripped of both. |
| Judges.Longest | AgentOccam/AgentOccam.py:1253 | `max(..., key=len)` is the first of the longest texts. |
| Judges.ChosenIsLongest | AgentOccam/AgentOccam.py:1253-1254 | The first pair carrying the longest text is the longest pair itself. |
| Judges.ActionSelection | AgentOccam/AgentOccam.py:1285 | A selection exists only when `action selection` is an output key. |
| Judges.StopIdBound | AgentOccam/AgentOccam.py:1252-1255 | The chosen stop belongs to a candidate of the list and is a `stop [` command. |
| Judges.JudgeActions | AgentOccam/AgentOccam.py:1207-1293 | The method computes `Judge` on the shuffled flattening, with the selection read from the response. |
| Judges.JudgeUnanimous | AgentOccam/AgentOccam.py:1211-1212 | When all candidates share one action, the first is returned without asking the model. |
| Judges.JudgeStopMajority | AgentOccam/AgentOccam.py:1252-1255 | With stops at least three fifths of the candidates, the candidate holding a longest stop is returned unchanged, without asking the model. |
| Judges.NoteChoiceLongest | AgentOccam/AgentOccam.py:1257-1258 | The chosen notes are some candidate's joined notes, and no candidate has longer ones. |
| Judges.JudgeOnlyNotes | AgentOccam/AgentOccam.py:1256-1261 | When nothing survives stripping, a candidate with the longest notes is returned with those notes as its action. |
| Judges.JudgeSingleSurvivor | AgentOccam/AgentOccam.py:1262-1266 | When one command list survives, it is returned prefixed by the longest notes and a newline, without asking the model. |
| Judges.JudgeStrictVerdict | AgentOccam/AgentOccam.py:1284-1293 | In strict mode, an in-range verdict picks a stripped candidate with a non-empty action and prefixes the notes when there are any. Anything else returns the first candidate. |
| Judges.JudgeModelVerdict | AgentOccam/AgentOccam.py:1270-1293 | Outside strict mode, an in-range verdict picks a deduplicated candidate of the list. Anything else returns the first candidate. |
| HistoryStore.Appended | AgentOccam/AgentOccam.py:116-119 | Each supplied tracked field gains exactly that entry. Other fields are unchanged, and unknown names are ignored. |
| HistoryStore.RecordKeepsLengths | AgentOccam/AgentOccam.py:116-123 | Starting from equal lengths, an update keeps them equal exactly when it supplies every tracked field or none. |
| HistoryStore.PerStepRecord | AgentOccam/AgentOccam.py:1399-1411 | The per-step update keeps lengths equal and grows the step counter by one. |
| HistoryStore.History.constructor | AgentOccam/AgentOccam.py:60-63 | Every default and configured field starts empty, and the step is 0. |
| HistoryStore.History.UpdateHistory | AgentOccam/AgentOccam.py:116-119 | The fields become `Appended` of the old fields. |
| Messages.NonEmptyTexts | AgentOccam/AgentOccam.py:81 | No empty text survives the filter. |
| Messages.NonEmptyTextsAtoms | AgentOccam/AgentOccam.py:81 | Dropping empty texts keeps the stream of characters and other items. |
| Messages.MergeInAtoms | AgentOccam/AgentOccam.py:88-99 | One merge step appends the item's characters or the item to the stream. |
| Messages.MergedAtoms | AgentOccam/AgentOccam.py:83-102 | Merging keeps the stream of characters and other items. |
| Messages.MergedNormal | AgentOccam/AgentOccam.py:83-102 | Merging leaves no adjacent texts, and creates no empty text from non-empty ones. |
| Messages.MergeAdjacentText | AgentOccam/AgentOccam.py:83-102 | The accumulator loop computes the merged list. |
| Messages.PruneMessageList | AgentOccam/AgentOccam.py:80-81 | The result has no empty or adjacent texts. It keeps the other items in order and the text between them. |
| Messages.HeadKinds | AgentOccam/AgentOccam.py:80-102 | Two normal lists for one stream start with the same kind of item. |
| Messages.NormalUnique | AgentOccam/AgentOccam.py:80-102 | Two normal lists for the same stream are equal. |
| Messages.PruneIdempotent | AgentOccam/AgentOccam.py:80-81 | Pruning a pruned list changes nothing. |
| Text.JoinSplit | webagents_step/utils/llm.py:45-51 | Splitting at a separator and joining with it gives back the text. |
| Text.ReplaceIsJoinOfSplit | webagents_step/utils/llm.py:45-51 | `replace` equals splitting at the pattern and joining with the replacement. |
| Text.ReplaceAbsent | webagents_step/utils/llm.py:45-51 | Replacing an absent pattern changes nothing. |
| Text.StripIdempotent | webagents_step/utils/llm.py:67-70 | Stripping twice is stripping once. |
| Text.NatToStringValue | AgentOccam/AgentOccam.py:843 | The decimal rendering of a step reads back as that step. |
| LlmParsers.FillPromptTemplate | webagents_step/utils/llm.py:43-52 | A result exists exactly when the template has `input` and the observation has text. Only `input` differs from the template. |
| LlmParsers.FillWithoutPlaceholders | webagents_step/utils/llm.py:43-52 | A template without placeholders comes back unchanged. |
| LlmParsers.MatchQuotedType | webagents_step/utils/llm.py:58-61 | A match yields non-empty digits and non-empty text without quotes or brackets. |
| LlmParsers.FilterQuotesUnquotes | webagents_step/utils/llm.py:58-67 | `type [d] ["y"]` becomes `type [d] [y]`. |
| LlmParsers.QuotedTypeMatch | webagents_step/utils/llm.py:58-61 | A written quoted `type` action matches with exactly its digits and text. |
| LlmParsers.FilterQuotesIdempotent | webagents_step/utils/llm.py:58-70 | On a trimmed action, filtering twice is filtering once. |
| LlmParsers.UnquotedStaysUnquoted | webagents_step/utils/llm.py:58-70 | An unquoted `type [d] [y]` is left as it is. |
| LlmParsers.FilterQuotesNotIdempotent | webagents_step/utils/llm.py:54-70 | A quoted `type` action with a leading space loses only the space on the first pass and its quotes on the second. |
| LlmParsers.HasLabelContains | webagents_step/utils/llm.py:73 | A single label is found exactly when the text contains it. |
| LlmParsers.ParseActionReasonShape | webagents_step/utils/llm.py:72-82 | The reason is present exactly when `REASON:` occurs, and the action exactly when `ACTION:` or `ACTIONS:` occurs. Both are trimmed, and the reason holds no capitalised line. |
| LlmParsers.ParseActionReasonRoundTrip | webagents_step/utils/llm.py:72-82 | `REASON: r` then `ACTION: a` on the next line reads back as r and the filtered a. |
| LlmParsers.ActionAfterReason | webagents_step/utils/llm.py:77 | The action of such a response reads back. |
| LlmParsers.ReasonFirst | webagents_step/utils/llm.py:73 | A reason followed by a capitalised line reads back. |
| LlmParsers.ActionLabelFirst | webagents_step/utils/llm.py:77 | The `ACTION:` after the reason line is the first action label. |

## Left out

- Language-model calls, prompt files, logging, the browser environment, the
  evaluation scripts and the plots are left out. A model response is an
  input string.
- `get_observation_highlight`, `get_interaction_history`, `parse_action`,
  `get_previous_plans` rendering, `del_observation_node` and
  `pre_process_atomic_actions` are left out. They depend on `AgentOccam.obs_opt`, which is not part of this model.
- `random.shuffle` is a permutation supplied by the caller.
- The judge's `input()` debug path, which overwrites the parsed verdict, is
  left out. So are the critic and its random choice.
- The judge reports whether the model was consulted. The
  `judgement_elements` dictionary it returns is left out.
- `update_online_state` is left out. The current url is a parameter of
  `Planning`, `Branch` and `FinalizeAction`.
- `init_actor` adding `go_home` to the navigation commands for multi-site
  tasks is left out. The navigation commands are a parameter.
- The observation in `is_valid_action` is its text.
  `get_observation_text` on dictionaries is not modelled.
- `is_navigation` is left out. It only feeds the environment step.
- `arrange_message_for_gpt` and `arrange_message_for_claude` are left out.
  Items other than text are abstracted to `NonText(P)`, so image encoding is
  not modelled.
- The node `type` field is left out. It is set but never read by the core.
- Whitespace above U+00FF (U+1680, U+2000 to U+200A, U+2028, U+2029,
  U+202F, U+205F and U+3000) is not modelled, nor are Python's non-ASCII
  `\d` digits and the non-ASCII case mappings of `str.upper`.
- Configured command keywords are assumed non-empty, trimmed and free of
  regular-expression syntax (`WellFormedKeywords`). The source escapes
  them, so the model writes them as plain text.
- The tree is an arena of nodes addressed by position. Object identity and
  aliasing of `PlanTreeNode` references are modelled through positions.
- `PlanTrees.PlanTree.Prune` requires that only the root carries plan number 0.
  Numbers come from `active.id + 1` and can collide otherwise, but never
  reach 0. `Actors.Actor` keeps this as an invariant.
- The stop rule `len(stop_list) >= 0.6 * len(list)` is written as
  `5 * stops >= 3 * n`. For any realistic list length, the floating-point
  product differs from the exact `3n/5` by far less than the gap to the next
  integer, so the two tests agree.
- `LlmParsers.FilterQuotesIdempotent`: idempotence is proved only for actions
  without surrounding whitespace, because the source's filter is not
  idempotent otherwise (`LlmParsers.FilterQuotesNotIdempotent`). Its only
  caller passes trimmed fields.
- `Actors.Actor.FinalizeAction` states the resulting tree only through the
  contracts of `Planning` and `TakeNote`, which it calls in turn.
- `LlmParsers.ParseActionReasonRoundTrip` requires the reason to hold no colon
  and no newline. This keeps `ACTION:` from being found inside the reason.
- The round trips `ActionGrammar.ActionPiecesRoundTrip` and
  `ActionGrammar.StipulatedRoundTrip` hold for keywords without newlines
  (`LineKeywords`) and pieces shaped as `SplitPieces` describes;
  `StipulatedRoundTrip` also needs kw to occur in each piece only at its
  start. Outside these conditions the greedy `\s*` or a keyword after an
  inner newline regroups the text, and the split is described only by the
  contracts of `Pass`, `PassEmpty`, `ActionPieces` and `Stipulated`.
- The `AgentOccam.act` loop that adds a note for an invalid navigation
  action is left out. It depends on the environment's status.
