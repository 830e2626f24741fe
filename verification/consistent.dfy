/** The transition function both test suites expect: Swift's Add (the next
    id advances on every Add, blank or not) together with Ruby's Check (the
    other entries are kept), plus a `run` that returns the input model for
    an empty message list. It works on the Swift model. */
module Consistent {
  import opened Wrappers
  import opened Blank
  import opened Compaction
  import opened Entries
  import SwiftTodo
  import RubyTodo
  import Engine

  /** The corrected transition. */
  function Apply(msg: SwiftTodo.Message, m: SwiftTodo.Model): (r: SwiftTodo.Model)
    ensures r.nextId == if msg.Add? then m.nextId + 1 else m.nextId
    ensures msg.Check? ==> |r.entries| == |m.entries| && Ids(r.entries) == Ids(m.entries)
    ensures msg.Check? ==> forall i :: 0 <= i < |m.entries| && m.entries[i].id == msg.id ==>
      r.entries[i] == Entry(msg.id, m.entries[i].description, msg.isCompleted)
    ensures msg.Check? ==> forall i :: 0 <= i < |m.entries| && m.entries[i].id != msg.id ==>
      r.entries[i] == m.entries[i]
    ensures msg.Check? ==> r.newEntryField == m.newEntryField
  {
    match msg
    case Check(id, isCompleted) =>
      var es := CheckAll(m.entries, id, isCompleted);
      assert Ids(es) == Ids(m.entries);
      SwiftTodo.Init(Some(m.nextId), m.newEntryField, es)
    case _ => SwiftTodo.Apply(msg, m)
  }

  /** The same state and message seen by the Ruby implementation. */
  function ToRuby(m: SwiftTodo.Model): RubyTodo.Model {
    RubyTodo.Model(m.entries, Some(m.newEntryField), m.nextId)
  }

  function ToRubyMsg(msg: SwiftTodo.Message): RubyTodo.Msg {
    match msg
    case Add => RubyTodo.Add
    case UpdateNewEntryField(s) => RubyTodo.UpdateNewEntryField(Some(s))
    case Check(id, isCompleted) => RubyTodo.Check(id, isCompleted)
    case Delete(id) => RubyTodo.Delete(id)
    case DeleteAllCompleted => RubyTodo.DeleteAllCompleted
  }

  /** The corrected transition is Swift's on every message but Check. */
  lemma AgreesWithSwiftExceptCheck(msg: SwiftTodo.Message, m: SwiftTodo.Model)
    requires !msg.Check?
    ensures Apply(msg, m) == SwiftTodo.Apply(msg, m)
  {
  }

  /** The corrected transition is Ruby's on every message but an Add of a
      blank field, where the two differ only in the next id: Ruby keeps it,
      the corrected transition advances it. */
  lemma AgreesWithRubyExceptBlankAdd(msg: SwiftTodo.Message, m: SwiftTodo.Model)
    ensures !(msg.Add? && IsBlank(m.newEntryField)) ==>
      RubyTodo.ApplyTo(ToRubyMsg(msg), ToRuby(m)) == ToRuby(Apply(msg, m))
    ensures msg.Add? && IsBlank(m.newEntryField) ==>
      RubyTodo.ApplyTo(ToRubyMsg(msg), ToRuby(m)) == ToRuby(Apply(msg, m)).(nextId := m.nextId)
  {
    BlankObjectAgreesOnStrings(m.newEntryField);
    var rm := ToRuby(m);
    match msg
    case Add =>
      assert RubyTodo.ApplyTo(RubyTodo.Add, rm) == RubyTodo.ApplyAdd(rm);
    case UpdateNewEntryField(s) =>
      assert RubyTodo.ApplyTo(ToRubyMsg(msg), rm) == RubyTodo.ApplyUpdateNewEntryField(Some(s), rm);
    case Check(id, isCompleted) =>
      assert RubyTodo.ApplyTo(ToRubyMsg(msg), rm) == RubyTodo.ApplyCheck(id, isCompleted, rm);
    case Delete(id) =>
      assert RubyTodo.ApplyTo(ToRubyMsg(msg), rm) == RubyTodo.ApplyDelete(id, rm);
    case DeleteAllCompleted =>
      assert RubyTodo.ApplyTo(ToRubyMsg(msg), rm) == RubyTodo.ApplyDeleteAllCompleted(rm);
  }

  /** On a message list without Check the corrected history is Swift's. */
  lemma AgreesWithSwiftWithoutChecks(m: SwiftTodo.Model, msgs: seq<SwiftTodo.Message>)
    requires forall i :: 0 <= i < |msgs| ==> !msgs[i].Check?
    ensures RunWithHistory(m, msgs) == SwiftTodo.RunWithHistory(m, msgs)
  {
    forall i, x | 0 <= i < |msgs|
      ensures Apply(msgs[i], x) == SwiftTodo.Apply(msgs[i], x)
    {
      AgreesWithSwiftExceptCheck(msgs[i], x);
    }
    Engine.HistoriesAgree(Apply, SwiftTodo.Apply, m, msgs);
  }

  /** Every message preserves the id invariant. */
  lemma ApplyPreservesValid(msg: SwiftTodo.Message, m: SwiftTodo.Model)
    requires SwiftTodo.Valid(m)
    ensures SwiftTodo.Valid(Apply(msg, m))
  {
    if !msg.Check? {
      SwiftTodo.ApplyPreservesValid(msg, m);
    }
  }

  /** Checking or deleting an id no entry has returns an equal model. */
  lemma AbsentIdIsNoOp(id: int, isCompleted: bool, m: SwiftTodo.Model)
    requires forall i :: 0 <= i < |m.entries| ==> m.entries[i].id != id
    ensures Apply(SwiftTodo.Check(id, isCompleted), m) == m
    ensures Apply(SwiftTodo.Delete(id), m) == m
  {
    SwiftTodo.AbsentId(id, isCompleted, m);
  }

  function RunWithHistory(m: SwiftTodo.Model, msgs: seq<SwiftTodo.Message>): (h: seq<SwiftTodo.Model>)
    ensures |h| == |msgs|
    ensures |msgs| > 0 ==> h[0] == Apply(msgs[0], m)
    ensures forall i {:trigger msgs[i]} :: 0 < i < |msgs| ==> h[i] == Apply(msgs[i], h[i - 1])
  {
    Engine.History(Apply, m, msgs)
  }

  /** A total `run`: the input model for no messages, the last history
      element otherwise. */
  function Run(m: SwiftTodo.Model, msgs: seq<SwiftTodo.Message>): (r: SwiftTodo.Model)
    ensures |msgs| == 0 ==> r == m
    ensures |msgs| > 0 ==> r == RunWithHistory(m, msgs)[|msgs| - 1]
  {
    if |msgs| == 0 then m
    else
      Engine.HistoryLastIsFold(Apply, m, msgs);
      Engine.Fold(Apply, m, msgs)
  }

  function IsAdd(msg: SwiftTodo.Message): bool {
    msg.Add?
  }

  /** Ids are consumed, never reused: after a run the next id has advanced
      by exactly the number of Add messages, whether or not they appended. */
  lemma {:induction false} NextIdCountsAdds(m: SwiftTodo.Model, msgs: seq<SwiftTodo.Message>)
    ensures Engine.Fold(Apply, m, msgs).nextId == m.nextId + CountWhere(msgs, IsAdd)
    decreases |msgs|
  {
    if |msgs| > 0 {
      NextIdCountsAdds(Apply(msgs[0], m), msgs[1..]);
    }
  }

  /** Starting from a valid model, every model in the history is valid. */
  lemma HistoryIsValid(m: SwiftTodo.Model, msgs: seq<SwiftTodo.Message>)
    requires SwiftTodo.Valid(m)
    ensures forall i :: 0 <= i < |msgs| ==> SwiftTodo.Valid(RunWithHistory(m, msgs)[i])
  {
    forall msg, x | SwiftTodo.Valid(x)
      ensures SwiftTodo.Valid(Apply(msg, x))
    {
      ApplyPreservesValid(msg, x);
    }
    Engine.HistoryPreserves(Apply, SwiftTodo.Valid, m, msgs);
  }
}
