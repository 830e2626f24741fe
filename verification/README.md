# To-do state machine, Ruby and Swift, in Dafny

The repository implements the same small to-do application twice, once in
Ruby (`ruby-todo/lib`) and once in Swift (`swift-todo/Sources/Todo`). The
application is an Elm-style state machine:

- A **Model** holds an ordered list of **Entries** (id, description,
  completed flag), a text field for the entry being typed, and the next id
  to hand out.
- Five **Messages** (Add, UpdateNewEntryField, Check, Delete,
  DeleteAllCompleted) each map a model to a new model.
- An **Engine** folds a message list over a model, either keeping every
  intermediate model (`runWithHistory`, the "time travel" view) or only the
  last one (`run`).

This project models both implementations as pure functions over immutable
datatypes and proves what each one does. The two implementations disagree
with each other and with their own test suites, and the model makes those
disagreements into theorems. A third, corrected transition is defined: it
is Swift's Add together with Ruby's Check, plus a `run` that returns the
input model for an empty list. The project proves that this corrected
transition meets the expectations of the 13-step time-travel test of both
suites and of the unit tests for UpdateNewEntryField, Add, blank Add, Check,
uncheck, Delete and DeleteAllCompleted. Ruby's blank-Add test resets the field to
`nil`, which the corrected transition's string field cannot hold. That test
is stated against Ruby as written, which the corrected transition differs from
only in the next id (`Consistent.AgreesWithRubyExceptBlankAdd`).

Modules:

- `Wrappers` (`wrappers.dfy`): `Option`.
- `Blank` (`blank.dfy`): Swift's `String.isBlank()` and Ruby's `Object#blank?`.
- `Compaction` (`compaction.dfy`): Ruby's `Array#reject`, and Swift's in-place
  `Array.remove(where:)` as a method with loop invariants.
- `Entries` (`entries.dfy`): the entry record, the defaulted next id, and
  both versions of the check loop.
- `Engine` (`engine.dfy`): history and fold over any transition function.
- `SwiftTodo` (`swift_todo.dfy`), `RubyTodo` (`ruby_todo.dfy`): each
  implementation as written.
- `Consistent` (`consistent.dfy`): the corrected transition and how it
  relates to each implementation.
- `Scenarios` (`scenarios.dfy`): the test suites' scenarios, stated
  against the corrected transition and against each implementation.

The model follows the code as written, including where it departs from its
own tests:

- Ruby's Add on a blank field does not advance the next id.
- Swift's Check keeps only the matching entries.

Two behaviours that no test contradicts are also modelled as written:

- An UpdateNewEntryField with no text stores `nil` in Ruby (`RubyTodo.Msg`
  carries an `Option<string>`). It is not turned into `""`; `blank?` then
  treats the `nil` as blank. Ruby's blank-Add test relies on this
  (`Scenarios.RubyBlankAddTestHolds`).
- `run` on an empty list traps in Swift and returns `nil` in Ruby. No test
  calls `run` with no messages.

The two departures from the tests, and the behaviour of `run` on an empty
list, are logged under Findings.

## Model

| member | source | states |
|---|---|---|
| Blank.FirstNonWhitespace | swift-todo/Sources/Todo/Utils.swift:10-17 | the search reports no position exactly when every character is whitespace, and otherwise the first non-whitespace position |
| Blank.IsBlank | swift-todo/Sources/Todo/Utils.swift:14-17 | a string is blank iff every character is in the whitespace class (the empty string included) |
| Blank.IsBlankObject | ruby-todo/lib/util.rb:7-9 | `nil` is blank; a string is blank iff every character is whitespace |
| Blank.BlankObjectAgreesOnStrings | ruby-todo/lib/util.rb:7-9 | Ruby's `blank?` and Swift's `isBlank()` agree on every string, given that one whitespace set models both classes |
| Blank.EmptyAndSpacesAreBlank | ruby-todo/lib/util.rb:3-9 | `""`, five spaces and `nil` are blank, as the blank-Add tests rely on |
| Blank.NonWhitespaceIsNotBlank | swift-todo/Sources/Todo/Utils.swift:14-17 | one character outside the class makes a string non-blank in both languages, and the search stops at or before it |
| Compaction.Reject | ruby-todo/lib/messages.rb:69-83 | the result holds only elements failing the predicate, holds every such element, and is no longer than the input |
| Compaction.RejectIsSubsequence | ruby-todo/lib/messages.rb:69-83 | what remains is an order-preserving subsequence of the input |
| Compaction.RejectLength | ruby-todo/lib/messages.rb:78-83 | exactly the elements satisfying the predicate are removed (length = input length minus their count) |
| Compaction.RejectAppend | ruby-todo/lib/messages.rb:69-83 | rejecting distributes over concatenation |
| Compaction.RejectNothingMatches | ruby-todo/lib/messages.rb:69-74 | when no element matches, the list comes back unchanged |
| Compaction.RejectIdempotent | ruby-todo/lib/messages.rb:78-83 | rejecting twice equals rejecting once |
| Compaction.RemoveWhere | swift-todo/Sources/Todo/Utils.swift:20-32 | the write-cursor compaction yields exactly `Reject` of the input: none of the removed elements survive, and the length drops by their count |
| Entries.Ids | swift-todo/Sources/Todo/Model.swift:9-10 | the id list has one id per entry, in entry order |
| Entries.Max | swift-todo/Sources/Todo/Model.swift:10 | `max()` is absent iff the list is empty, and is otherwise an element no smaller than any other |
| Entries.DefaultNextId | ruby-todo/lib/model.rb:4-5 | the default id is 0 for no entries, and is otherwise above every id and one more than some id, so it is the least integer above all ids |
| Entries.AppendFreshKeepsIds | swift-todo/Sources/Todo/Message.swift:22-26 | appending an entry whose id is the next id keeps ids distinct and below the advanced next id |
| Entries.CheckAll | ruby-todo/lib/messages.rb:42-58 | same length; ids and descriptions kept; matching entries take the new flag; others are unchanged |
| Entries.KeepChecked | swift-todo/Sources/Todo/Message.swift:32-40 | every result entry has the checked id and the new flag; there are exactly as many of them as entries with that id, so the result is empty iff no entry matches |
| Entries.KeepCheckedIsCheckOfMatching | swift-todo/Sources/Todo/Message.swift:32-40 | Swift's loop equals Ruby's check applied only to the entries that have the id |
| Entries.CheckAllAbsent | ruby-todo/lib/messages.rb:42-58 | checking an id no entry has returns the same list |
| Entries.SubsequenceKeepsIds | ruby-todo/lib/messages.rb:69-83 | an order-preserving subsequence keeps ids distinct and below the bound |
| Entries.RejectKeepsIds | swift-todo/Sources/Todo/Message.swift:42-46 | removing entries keeps ids distinct and below the bound |
| Entries.KeepCheckedKeepsIds | swift-todo/Sources/Todo/Message.swift:32-40 | Swift's check keeps ids distinct and below the bound, and with distinct ids leaves at most one entry |
| Engine.History | swift-todo/Sources/Todo/Engine.swift:15-21 | one model per message: element 0 is the first message applied to the input, and element i is message i applied to element i-1 |
| Engine.HistoryIsDeterminedByRecurrence | ruby-todo/lib/engine.rb:6-10 | any list of the right length that follows that recurrence is the history |
| Engine.HistoryLastIsFold | swift-todo/Sources/Todo/Engine.swift:11-13 | the last history element is the fold of all the messages |
| Engine.FoldAppend | ruby-todo/lib/engine.rb:6-10 | folding `a + b` folds `b` from where `a` ended |
| Engine.HistoryAppend | ruby-todo/lib/engine.rb:6-10 | the history of `a + b` is the history of `a` followed by the history of `b` from the fold of `a` |
| Engine.HistoryPreserves | swift-todo/Sources/Todo/Engine.swift:15-21 | a property every transition preserves holds of every history element |
| Engine.HistoriesAgree | swift-todo/Sources/Todo/Engine.swift:15-21 | two transitions that agree on each listed message give the same history |
| SwiftTodo.Init | swift-todo/Sources/Todo/Model.swift:6-11 | fields are stored; a supplied id is kept verbatim; an omitted id is 0 for no entries and otherwise the least integer above every id |
| SwiftTodo.DefaultModelIsEmpty | swift-todo/Tests/TodoTests/TodoTests.swift:12-15 | `Model()` has no entries, an empty field and next id 0 |
| SwiftTodo.EntryEquals | swift-todo/Sources/Todo/Model.swift:34-40 | field-wise `==` on entries holds iff the entries are equal values |
| SwiftTodo.ModelEquals | swift-todo/Sources/Todo/Model.swift:26-32 | field-wise `==` on models, entries compared in order, holds iff the models are equal values |
| SwiftTodo.Apply | swift-todo/Sources/Todo/Message.swift:17-51 | Add always advances the next id, clears the field, and appends iff the field is not blank; Update replaces only the field. Check leaves only entries with the id and the new flag, one per matching entry. Delete and DeleteAllCompleted keep exactly the entries without the id or the flag, in order, each as often as it occurs: the length drops by the number of removed entries. Nothing else changes. |
| SwiftTodo.InitIsValid | swift-todo/Sources/Todo/Model.swift:6-11 | entries with distinct ids and a defaulted next id form a valid model |
| SwiftTodo.ApplyPreservesValid | swift-todo/Sources/Todo/Message.swift:17-51 | every message keeps ids distinct and below the next id |
| SwiftTodo.DeleteAllCompletedIdempotent | swift-todo/Sources/Todo/Message.swift:45-46 | deleting the completed entries twice equals doing it once |
| SwiftTodo.AbsentId | swift-todo/Sources/Todo/Message.swift:32-43 | for an id no entry has, Delete is a no-op but Check empties the entry list |
| SwiftTodo.CheckKeepsOnlyMatching | swift-todo/Sources/Todo/Message.swift:32-40 | Check's entries are Ruby's checked copy of only the matching entries |
| SwiftTodo.RunWithHistory | swift-todo/Sources/Todo/Engine.swift:15-21 | one model per message, each the message applied to the previous model |
| SwiftTodo.Run | swift-todo/Sources/Todo/Engine.swift:11-13 | for a non-empty list, the result is the fold of the messages (the empty list traps on `.last!`) |
| SwiftTodo.HistoryIsValid | swift-todo/Sources/Todo/Engine.swift:15-21 | from a valid model every history element is valid |
| SwiftTodo.HistoryNextIdNeverDecreases | swift-todo/Sources/Todo/Message.swift:20-26 | along a history the next id never goes down and starts no lower than the input's |
| SwiftTodo.HistoryOfConcatenation | swift-todo/Sources/Todo/Engine.swift:11-21 | the history of `a + b` continues from the model `a` ends in |
| RubyTodo.New | ruby-todo/lib/model.rb:2-6 | fields are stored; a non-nil id is kept; a nil id is 0 for no entries and otherwise the least integer above every id |
| RubyTodo.DefaultModelIsEmpty | ruby-todo/test/todo_test.rb:14-17 | `Model.new` has no entries, field `""` and next id 0 |
| RubyTodo.EntryEquals | ruby-todo/lib/model.rb:25-30 | `Entry#==` is false against nil and otherwise holds iff the entries are equal values |
| RubyTodo.ModelEquals | ruby-todo/lib/model.rb:10-15 | `Model#==` is false against nil and otherwise holds iff the models are equal values |
| RubyTodo.ApplyAdd | ruby-todo/lib/messages.rb:3-18 | the field becomes `""`; a non-blank field is appended as a new entry with the next id, which then advances; a blank or nil field leaves entries and next id unchanged |
| RubyTodo.ApplyUpdateNewEntryField | ruby-todo/lib/messages.rb:28-32 | the field becomes the given value, nil included; entries and next id are unchanged |
| RubyTodo.ApplyCheck | ruby-todo/lib/messages.rb:42-58 | same length and id order; matching entries take the new flag and keep their description; the others, the field and the next id are unchanged |
| RubyTodo.ApplyDelete | ruby-todo/lib/messages.rb:69-74 | exactly the entries with another id remain, in order and with their multiplicity (the length drops by the number of entries with the id); field and next id unchanged |
| RubyTodo.ApplyDeleteAllCompleted | ruby-todo/lib/messages.rb:78-83 | exactly the uncompleted entries remain, in order and with their multiplicity (the length drops by the number of completed entries); field and next id unchanged |
| RubyTodo.ApplyTo | ruby-todo/lib/messages.rb:1-86 | no message lowers the next id, only Add may raise it, and by at most one |
| RubyTodo.ApplyToPreservesValid | ruby-todo/lib/messages.rb:1-86 | every message keeps ids distinct and below the next id |
| RubyTodo.AbsentIdIsNoOp | ruby-todo/lib/messages.rb:42-74 | Check and Delete of an id no entry has return an equal model |
| RubyTodo.DeleteAllCompletedIdempotent | ruby-todo/lib/messages.rb:78-83 | deleting the completed entries twice equals doing it once |
| RubyTodo.RunWithHistory | ruby-todo/lib/engine.rb:6-10 | one model per message, each the message applied to the previous model |
| RubyTodo.Run | ruby-todo/lib/engine.rb:2-4 | the result is nil iff the list is empty, and otherwise the fold of the messages |
| RubyTodo.HistoryIsValid | ruby-todo/lib/engine.rb:6-10 | from a valid model every history element is valid, with a next id no lower than the input's |
| Consistent.Apply | swift-todo/Sources/Todo/Message.swift:17-51 | the next id advances on every Add and only then; Check keeps every entry in place, giving the new flag to the matching ones and leaving the others and the field unchanged |
| Consistent.AgreesWithSwiftExceptCheck | swift-todo/Sources/Todo/Message.swift:22-46 | on every message but Check the corrected transition is Swift's |
| Consistent.AgreesWithRubyExceptBlankAdd | ruby-todo/lib/messages.rb:1-86 | on every message but an Add of a blank field the corrected transition is Ruby's; on that one they differ only in the next id |
| Consistent.AgreesWithSwiftWithoutChecks | swift-todo/Sources/Todo/Engine.swift:15-21 | on a message list without Check the corrected history is Swift's |
| Consistent.ApplyPreservesValid | ruby-todo/lib/messages.rb:42-58 | the corrected transition keeps ids distinct and below the next id |
| Consistent.AbsentIdIsNoOp | ruby-todo/lib/messages.rb:42-74 | Check and Delete of an absent id return the same model |
| Consistent.RunWithHistory | ruby-todo/lib/engine.rb:6-10 | one model per message, each the corrected transition of the previous model |
| Consistent.Run | ruby-todo/lib/engine.rb:2-4 | the input model for no messages, otherwise the last history element |
| Consistent.NextIdCountsAdds | swift-todo/Sources/Todo/Message.swift:22-26 | after a run the next id has advanced by exactly the number of Adds, blank or not |
| Consistent.HistoryIsValid | ruby-todo/lib/engine.rb:6-10 | from a valid model every corrected history element is valid |
| Scenarios.TimeTravelForAnyTexts | swift-todo/Tests/TodoTests/TodoTests.swift:81-147 | for any non-blank texts, the corrected history of the 13 time-travel messages is exactly the 13 expected models |
| Scenarios.TimeTravel | ruby-todo/test/todo_test.rb:93-164 | the time-travel test's expected history, with its own texts, is the corrected transition's history |
| Scenarios.TimeTravelFinalModel | swift-todo/Tests/TodoTests/TodoTests.swift:138-140 | the run ends with only entry 3 ("go backward in time", unchecked), an empty field and next id 4 |
| Scenarios.SwiftTimeTravelDiverges | swift-todo/Tests/TodoTests/TodoTests.swift:81-147 | Swift as written matches the first nine expected models, then the first Check leaves only entry 0 where entries 0 and 3 are expected |
| Scenarios.SwiftBreaksTimeTravelTest | swift-todo/Tests/TodoTests/TodoTests.swift:143-146 | Swift's history differs from the expected one at step 9 |
| Scenarios.RubyMessagesCorrespond | ruby-todo/test/todo_test.rb:96-110 | the Ruby test's messages are the Swift test's, translated one by one |
| Scenarios.RubyTimeTravelDiverges | ruby-todo/test/todo_test.rb:96-120 | Ruby as written matches the first two expected models; the third has next id 1 where 2 is expected, and nothing else differs |
| Scenarios.RubyBreaksTimeTravelTest | ruby-todo/test/todo_test.rb:160-163 | Ruby's history differs from the expected one at step 2, only in the next id |
| Scenarios.FixturesStartAtTwelve | swift-todo/Tests/TodoTests/TodoTests.swift:5-10 | the two-entry fixture (ids 10 and 11) gets next id 12 in both languages |
| Scenarios.SwiftBreaksCheckTests | swift-todo/Tests/TodoTests/TodoTests.swift:47-78 | Swift's Check of entry 10 leaves one entry, so the test's `entries[1]` is out of range; the DeleteAllCompleted test then ends with no entries instead of `[11]` |
| Scenarios.CheckTestHolds | ruby-todo/test/todo_test.rb:55-61 | the corrected Check of entry 10 completes it and leaves entry 11 unchecked |
| Scenarios.UncheckTestHolds | ruby-todo/test/todo_test.rb:63-71 | checking 10 and 11, then unchecking 10, leaves 10 open and 11 completed |
| Scenarios.DeleteAllCompletedTestHolds | ruby-todo/test/todo_test.rb:84-90 | after checking 10 and deleting the completed entries, the ids are `[11]` |
| Scenarios.UpdateTestHolds | ruby-todo/test/todo_test.rb:19-26 | after UpdateNewEntryField("typing away") on the fixture the field holds "typing away", in the corrected transition and in Ruby as written |
| Scenarios.AddTestHolds | swift-todo/Tests/TodoTests/TodoTests.swift:24-34 | typing "hop on one foot" and adding gives three entries, the last with id 12, that text and unchecked |
| Scenarios.BlankAddTestHolds | swift-todo/Tests/TodoTests/TodoTests.swift:36-45 | two Adds of blank fields leave the two entries, and still consume ids 12 and 13 |
| Scenarios.DeleteTestHolds | swift-todo/Tests/TodoTests/TodoTests.swift:65-70 | deleting entry 10 leaves ids `[11]` |
| Scenarios.RubyBlankAddTestHolds | ruby-todo/test/todo_test.rb:42-51 | Ruby as written meets its blank-Add test's expectation with a nil field, and its next id stays 12 |

## Left out

- Whitespace tables: Foundation's `whitespacesAndNewlines` and Onigmo's `[[:space:]]` are both modelled by one set, `IsWhitespace`, the Unicode White_Space list. Nothing in the repository shows the two classes are equal, and neither table was checked character by character. `Blank.BlankObjectAgreesOnStrings` follows from this choice: where the two classes differ, Swift's `isBlank()` and Ruby's `blank?` can disagree. Swift's grapheme-cluster strings and Ruby's byte or encoding handling are not modelled; strings are sequences of code points.
- Ruby duck typing: the new-entry field is a string or `nil`. Any other object stored there by `UpdateNewEntryField`, and `blank?` on it, is not modelled.
- Integer width: Swift's `Int` traps when `nextID += 1` overflows, and Ruby integers are unbounded. Ids are unbounded integers here, so the Swift overflow trap is not modelled.
- Mutation and aliasing: Ruby's `attr_accessor` setters and Swift's `var` fields allow a model to be changed after it is recorded in a history. The model has immutable values only, as both implementations' transitions build new models.
- `Msg::*#initialize` and `attr_reader`: represented by the `RubyTodo.Msg` constructors.
- SwiftTodo.EntryEquals / SwiftTodo.ModelEquals: Swift's `String ==` compares by Unicode canonical equivalence (U+00E9 equals `e` followed by U+0301). Here it is modelled as code-point equality, so on such strings Swift's `==` is true where the model's is false. Ruby's `String#==` compares the bytes, so the two implementations also disagree on such inputs. Unicode normalisation is not modelled.
- RubyTodo.ApplyTo: its own contract states only the next-id bounds; the behaviour of each message is stated by `ApplyAdd`, `ApplyUpdateNewEntryField`, `ApplyCheck`, `ApplyDelete` and `ApplyDeleteAllCompleted`, which it dispatches to, as Ruby dispatches `apply_to` on the message's class.
- `SwiftTodo.Run`: the trap of `.last!` on an empty list is modelled as a precondition (`|msgs| > 0`), not as a value.
- Test framework mechanics (minitest, XCTest, `zip`/`each.with_index` comparison and messages) are not modelled. The scenarios state the tests' expected values directly.
- `swift-todo/Package.swift` (build configuration) is not part of this model.

## Findings

| source | as written | input that shows it | evidently intended | confidence | as-written member | corrected member |
|---|---|---|---|---|---|---|
| ruby-todo/lib/messages.rb:5-17 | Add of a blank field returns `next_id: model.next_id`; only a non-blank Add advances the id | the time-travel messages `UpdateNewEntryField("go forward in time"), Add, Add`: the history's third model has next id 1, the test expects 2 | every Add consumes an id, appended or not, as Swift and both test suites do | high, not executed | RubyTodo.ApplyAdd, Scenarios.RubyTimeTravelDiverges | Consistent.Apply, Consistent.NextIdCountsAdds |
| swift-todo/Sources/Todo/Message.swift:32-40 | `.check` starts from an empty list and appends only the entries with the id, so every other entry is dropped | fixture entries 10 and 11 with `.check(10, true)`: one entry remains and the test reads `entries[1]`; in time travel step 9 only entry 0 remains | entries with other ids pass through unchanged and in place, as in Ruby's check and both test suites | high, not executed | Entries.KeepChecked, Scenarios.SwiftBreaksCheckTests, Scenarios.SwiftTimeTravelDiverges | Consistent.Apply, Scenarios.CheckTestHolds, Scenarios.TimeTravelForAnyTexts |
| swift-todo/Sources/Todo/Engine.swift:11-13 and ruby-todo/lib/engine.rb:2-4 | `run` takes the last history element: Swift force-unwraps it and traps on an empty list; Ruby returns `nil` | the empty message list | not stated in the source; `Consistent.Run` returns the input model | low, not executed | SwiftTodo.Run, RubyTodo.Run | Consistent.Run |
