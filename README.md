# Lamp-skills choice dialog of IronQuest, modelled in Dafny

IronQuest's "Skill Lamp Choices" dialog shows every skill in a multi-selection
list view. The dialog mirrors the selection into the application's set of lamp
skills, and a label enumerates the chosen skills. This project models the
dialog's three pieces of logic:

- **Seeding** (`selectSkills`). The dialog reads the store's lamp-skill set,
  selects each member in the list view, and renders the label once.
- **Synchronisation** (`updateLampSkills`). This is the listener on the
  selected items. It walks the change cursor's sub-changes in order. An
  "updated" or "permutated" sub-change is only logged. Any other sub-change
  first adds its added items to the set, then removes its removed items. If
  reading either list raises an index-out-of-bounds fault (a known toolkit
  defect), the set is cleared and refilled from the full selected list, and
  the loop goes on with the next sub-change. After the loop the label is
  rendered once and the set is written back to the store once.
- **Label formatting** (`updateSkillsLabel`). For each skill, in the set's
  iteration order, the dialog appends `"<i>. <name>\n"`, with `i` counting
  from 1. It then deletes the final newline if anything was written.

Files:

- `selection.dfy` (module `Selection`). A sub-change is a datatype
  `Updated | Permuted | AddRemove(added, removed, fault)`. `ApplyChange` and
  `ApplyBatch` give the set after one sub-change and after a batch. The lemmas
  cover the set algebra, the fault resync and how batches compose.
- `skills_label.dfy` (module `SkillsLabel`). It holds the decimal rendering of
  the index, the label as a pure function `Summary` of an enumeration order,
  and the builder loop `RenderSummary`. It also proves that the label reads
  back: each line parses back to its index and name.
- `lamp_skills_dialog.dfy` (module `LampSkillsDialog`). The store is a class
  `IronQuest` with the mutable field `lampSkills`. The dialog is a class
  `LampSkillsChoice` with the list view's selected items, the label text, and
  methods `Select`, `SelectSkills`, `UpdateSkillsLabel` and `UpdateLampSkills`.
  Each method's postcondition ties the new state to the specification
  functions above.

Modelling decisions:

- `Skill` is a type parameter. `Skill.toString` is the dialog's constant
  function `name`.
- A fault is an input of the sub-change. `OnAdded` means reading the added
  items faults. `OnRemoved` means reading the removed items faults, after the
  additions have already been made. Either fault only fires if its step runs:
  the source reads the added list only when `wasAdded`, and the removed list
  only when `wasRemoved`.
- `c.getList()` is the cursor's source list, which is the same list for every
  sub-change of one notification. It is the parameter `current` of
  `UpdateLampSkills`.
- The iteration order of a `HashSet` is unspecified. The loops pick the next
  member with `:|`, and the ghost field `shown` records the order used for the
  label. Contracts state the label as `Summary(name, shown)`, where `shown`
  enumerates the set.

How the code behaves, as the lemmas state it:

- One sub-change carries both lists, and additions are applied before
  removals. A sub-change that removes a skill and adds it back therefore
  drops it from the set (`ReAddedItemIsDropped`).
- After a fault the loop goes on, so later sub-changes are applied on top of
  the resynced set (`FaultForgetsHistory`).
- Splitting a batch is harmless (`BatchSplit`), but reordering it is not
  (`OrderMatters`).
- When every sub-change truthfully describes how the selected list changed,
  and none adds and removes the same skill, the set ends equal to the final
  selected list, whichever sub-changes fault (`BatchTracksSelection`).

## Model

| member | source | states |
|---|---|---|
| `Selection.ApplyChange` | src/main/java/com/darrenswhite/rs/ironquest/gui/LampSkillsChoice.java:155-175 | one sub-change yields only skills that were chosen, added or selected, and a non-faulting one leaves none of its removed skills chosen |
| `Selection.ApplyBatch` | src/main/java/com/darrenswhite/rs/ironquest/gui/LampSkillsChoice.java:154-177 | a batch yields only skills that were chosen, selected or added by one of its sub-changes |
| `Selection.UpdatedOrPermutedKeepsSet` | src/main/java/com/darrenswhite/rs/ironquest/gui/LampSkillsChoice.java:155-158 | an updated or permutated sub-change leaves the chosen set exactly as it was |
| `Selection.AddThenRemove` | src/main/java/com/darrenswhite/rs/ironquest/gui/LampSkillsChoice.java:161-169 | after a non-faulting sub-change, a skill is chosen iff it was chosen or added, and it was not removed; a skill both added and removed ends up absent, because additions come first |
| `Selection.AddPresentIsNoop` | src/main/java/com/darrenswhite/rs/ironquest/gui/LampSkillsChoice.java:162-164 | adding an already chosen skill changes nothing (set semantics of `addAll`) |
| `Selection.RemoveAbsentIsNoop` | src/main/java/com/darrenswhite/rs/ironquest/gui/LampSkillsChoice.java:167-169 | removing a skill that is not chosen changes nothing (set semantics of `removeAll`) |
| `Selection.FaultResynchronises` | src/main/java/com/darrenswhite/rs/ironquest/gui/LampSkillsChoice.java:170-175 | a faulting sub-change leaves exactly the elements of the full selected list, whatever the set held before, including a partial add |
| `Selection.BatchSplit` | src/main/java/com/darrenswhite/rs/ironquest/gui/LampSkillsChoice.java:154-177 | sub-changes are applied strictly in order: processing a batch is processing its first part, then its second part on the result |
| `Selection.FaultForgetsHistory` | src/main/java/com/darrenswhite/rs/ironquest/gui/LampSkillsChoice.java:154-177 | a fault at sub-change k does not stop the loop: the result is the selected list with the later sub-changes applied on top, and it does not depend on the starting set |
| `Selection.LastFaultMatchesSelection` | src/main/java/com/darrenswhite/rs/ironquest/gui/LampSkillsChoice.java:170-177 | a batch whose last sub-change faults ends with exactly the selected list's elements |
| `Selection.BatchIgnoresUpdatesAndPermutations` | src/main/java/com/darrenswhite/rs/ironquest/gui/LampSkillsChoice.java:154-158 | removing every updated or permutated sub-change from a batch does not change its outcome |
| `Selection.BatchStaysInDomain` | src/main/java/com/darrenswhite/rs/ironquest/gui/LampSkillsChoice.java:160-175 | if the starting set, the selected list and every added item are offered skills, the final set holds only offered skills |
| `Selection.OrderMatters` | src/main/java/com/darrenswhite/rs/ironquest/gui/LampSkillsChoice.java:161-169 | sub-changes do not commute: add-then-remove leaves a skill out, remove-then-add leaves it in |
| `Selection.AddRemoveScenario` | src/main/java/com/darrenswhite/rs/ironquest/gui/LampSkillsChoice.java:161-169 | from {B, D}, adding A then removing D gives {A, B} |
| `Selection.FaultScenario` | src/main/java/com/darrenswhite/rs/ironquest/gui/LampSkillsChoice.java:170-175 | from {A}, a faulting add of B while the selected list is A, B, C gives {A, B, C}, not {A, B} |
| `Selection.BatchTracksSelection` | src/main/java/com/darrenswhite/rs/ironquest/gui/LampSkillsChoice.java:154-177 | if each sub-change truthfully describes how the selected list changed and none adds and removes the same skill, the batch ends with exactly the final selected list, with or without faults |
| `Selection.ReAddedItemIsDropped` | src/main/java/com/darrenswhite/rs/ironquest/gui/LampSkillsChoice.java:162-169 | a sub-change that removes a chosen skill and adds it back leaves it selected but drops it from the set, because additions run first |
| `Selection.EnumerationSize` | src/main/java/com/darrenswhite/rs/ironquest/gui/LampSkillsChoice.java:194 | iterating a set visits as many skills as the set has members |
| `SkillsLabel.NatToString` | src/main/java/com/darrenswhite/rs/ironquest/gui/LampSkillsChoice.java:195 | the index is written as a non-empty string of decimal digits with no leading zero |
| `SkillsLabel.ParseNatToString` | src/main/java/com/darrenswhite/rs/ironquest/gui/LampSkillsChoice.java:195 | reading the written index back gives the index |
| `SkillsLabel.Line` | src/main/java/com/darrenswhite/rs/ironquest/gui/LampSkillsChoice.java:195 | a line `"<i>. <name>"` parses back to exactly i and name |
| `SkillsLabel.TerminatedIsJoinedPlusNewline` | src/main/java/com/darrenswhite/rs/ironquest/gui/LampSkillsChoice.java:194-200 | when at least one line was written, deleting the builder's last character leaves the lines joined by single newlines |
| `SkillsLabel.Summary` | src/main/java/com/darrenswhite/rs/ironquest/gui/LampSkillsChoice.java:191-202 | the label is empty iff no skill is chosen |
| `SkillsLabel.SummaryReadsBack` | src/main/java/com/darrenswhite/rs/ironquest/gui/LampSkillsChoice.java:191-202 | for n >= 1 skills with single-line names, the label has exactly n lines (n - 1 newlines, none trailing), and line i reads back as index i + 1 and the i-th skill's name |
| `SkillsLabel.SetSummaryLineCount` | src/main/java/com/darrenswhite/rs/ironquest/gui/LampSkillsChoice.java:190-202 | the label of a non-empty set of skills has exactly one line per member |
| `SkillsLabel.RenderSummary` | src/main/java/com/darrenswhite/rs/ironquest/gui/LampSkillsChoice.java:190-201 | the builder loop over the set yields `Summary(name, order)` for an order that lists each member exactly once |
| `LampSkillsDialog.LampSkillsChoice.constructor` | src/main/java/com/darrenswhite/rs/ironquest/gui/LampSkillsChoice.java:106-123 | the opened dialog selects exactly the store's lamp skills among the offered ones, leaves the store as it was, and shows the label of the store's set |
| `LampSkillsDialog.InItemOrder` | src/main/java/com/darrenswhite/rs/ironquest/gui/LampSkillsChoice.java:137 | the selected items are exactly the chosen skills among the offered ones, each once when the offered skills are distinct |
| `LampSkillsDialog.InItemOrderListedOnly` | src/main/java/com/darrenswhite/rs/ironquest/gui/LampSkillsChoice.java:137 | which items are selected depends only on the chosen skills that are offered |
| `LampSkillsDialog.LampSkillsChoice.Select` | src/main/java/com/darrenswhite/rs/ironquest/gui/LampSkillsChoice.java:137 | selecting a skill adds it to the selected items if it is offered, keeps the selected items in the order the skills are offered, and changes nothing for a skill already selected or not offered |
| `LampSkillsDialog.LampSkillsChoice.UpdateSkillsLabel` | src/main/java/com/darrenswhite/rs/ironquest/gui/LampSkillsChoice.java:190-203 | the label becomes the numbered enumeration of the given set, in one iteration order of it |
| `LampSkillsDialog.LampSkillsChoice.SelectSkills` | src/main/java/com/darrenswhite/rs/ironquest/gui/LampSkillsChoice.java:133-141 | seeding adds the store's offered lamp skills to the selection, does not modify the store, and leaves the label equal to the format of the store's set |
| `LampSkillsDialog.LampSkillsChoice.UpdateLampSkills` | src/main/java/com/darrenswhite/rs/ironquest/gui/LampSkillsChoice.java:148-183 | after a batch, the store holds `ApplyBatch` of its old set (written once, after the loop), and the label is the format of that same set |

## Left out

- Window setup in the constructor and `init` (modality, owner, title, grid, scroll pane, scene, sizing): presentation only, no decisions.
- ListView and selection-model internals: the change cursor becomes a sequence of `Change` values plus the selected list. `Select` models `select(item)` as choosing an offered skill, with the selected items kept in the order of the offered items; selected indices and focus are not modelled.
- Re-entry of the listener: in the source each `select` call during seeding notifies `updateLampSkills`. `SelectSkills` does not re-enter `UpdateLampSkills`. A non-faulting re-entry would only re-add a skill that is already in the set.
- Why the toolkit raises the fault: the fault is an input flag of the sub-change. A fault part-way through adding the added items is modelled as a fault before the first insertion. Both give the same result, because the resync discards the partial add.
- Exceptions other than the index fault are not caught in the source and would escape the listener. They are not modelled.
- Debug logging of updated and permutated sub-changes: a side effect with no state.
- The `IronQuest` singleton: a class with a single field. Whether `getLampSkills` returns the stored set by reference is not modelled. The model edits a copy and writes it back once. The final store is the same either way.
- The skill enum's values and `toString`: the model uses a type parameter and the function `name`.
- `HashSet` iteration order is a nondeterministic choice. The model does not require two iterations of an unchanged set to visit it in the same order.
- RenderSummary: the Java `int` index is unbounded in the model. Overflow would need more than 2^31 chosen skills.
