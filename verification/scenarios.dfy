/** The test suites' scenarios, used as oracles: the time-travel history and
    the per-message unit tests, checked against the corrected transitions and
    against each implementation as written. */
module Scenarios {
  import opened Wrappers
  import opened Entries
  import opened Blank
  import opened Compaction
  import SwiftTodo
  import RubyTodo
  import Consistent
  import Engine

  const Forward := "go forward in time"
  const DeleteThis := "delete this item"
  const Backward := "go backward in time"

  /** The thirteen messages of the time-travel test, over any texts. */
  function TimeTravelMessagesFor(forward: string, deleteThis: string, inTime: string, backward: string): seq<SwiftTodo.Message> {
    [
      SwiftTodo.UpdateNewEntryField(forward),
      SwiftTodo.Add,
      SwiftTodo.Add,
      SwiftTodo.UpdateNewEntryField(deleteThis),
      SwiftTodo.Add,
      SwiftTodo.Delete(2),
      SwiftTodo.UpdateNewEntryField(inTime),
      SwiftTodo.UpdateNewEntryField(backward),
      SwiftTodo.Add,
      SwiftTodo.Check(0, true),
      SwiftTodo.Check(3, true),
      SwiftTodo.Check(3, false),
      SwiftTodo.DeleteAllCompleted
    ]
  }

  /** The thirteen models the time-travel test expects, over the same texts. */
  function ExpectedHistoryFor(forward: string, deleteThis: string, inTime: string, backward: string): seq<SwiftTodo.Model> {
    var f := Entry(0, forward, false);
    var fDone := Entry(0, forward, true);
    var b := Entry(3, backward, false);
    var bDone := Entry(3, backward, true);
    [
      SwiftTodo.Model([], forward, 0),
      SwiftTodo.Model([f], "", 1),
      SwiftTodo.Model([f], "", 2),
      SwiftTodo.Model([f], deleteThis, 2),
      SwiftTodo.Model([f, Entry(2, deleteThis, false)], "", 3),
      SwiftTodo.Model([f], "", 3),
      SwiftTodo.Model([f], inTime, 3),
      SwiftTodo.Model([f], backward, 3),
      SwiftTodo.Model([f, b], "", 4),
      SwiftTodo.Model([fDone, b], "", 4),
      SwiftTodo.Model([fDone, bDone], "", 4),
      SwiftTodo.Model([fDone, b], "", 4),
      SwiftTodo.Model([b], "", 4)
    ]
  }

  /** The same thirteen messages as the Ruby test sends them. */
  function RubyTimeTravelMessagesFor(forward: string, deleteThis: string, inTime: string, backward: string): seq<RubyTodo.Msg> {
    [
      RubyTodo.UpdateNewEntryField(Some(forward)),
      RubyTodo.Add,
      RubyTodo.Add,
      RubyTodo.UpdateNewEntryField(Some(deleteThis)),
      RubyTodo.Add,
      RubyTodo.Delete(2),
      RubyTodo.UpdateNewEntryField(Some(inTime)),
      RubyTodo.UpdateNewEntryField(Some(backward)),
      RubyTodo.Add,
      RubyTodo.Check(0, true),
      RubyTodo.Check(3, true),
      RubyTodo.Check(3, false),
      RubyTodo.DeleteAllCompleted
    ]
  }

  const TimeTravelMessages := TimeTravelMessagesFor(Forward, DeleteThis, "go in time", Backward)
  const ExpectedHistory := ExpectedHistoryFor(Forward, DeleteThis, "go in time", Backward)
  const RubyTimeTravelMessages := RubyTimeTravelMessagesFor(Forward, DeleteThis, "go in time", Backward)

  /** One-step facts about the corrected transitions on the shapes the
      scenario passes through. */
  lemma AddStep(m: SwiftTodo.Model)
    ensures !IsBlank(m.newEntryField) ==>
      Consistent.Apply(SwiftTodo.Add, m)
        == SwiftTodo.Model(m.entries + [Entry(m.nextId, m.newEntryField, false)], "", m.nextId + 1)
    ensures IsBlank(m.newEntryField) ==>
      Consistent.Apply(SwiftTodo.Add, m) == SwiftTodo.Model(m.entries, "", m.nextId + 1)
  {
  }

  lemma UpdateStep(s: string, m: SwiftTodo.Model)
    ensures Consistent.Apply(SwiftTodo.UpdateNewEntryField(s), m) == m.(newEntryField := s)
  {
  }

  lemma CheckStep(id: int, isCompleted: bool, x: Entry, y: Entry, field: string, n: int)
    requires x.id != y.id
    requires x.id == id || y.id == id
    ensures Consistent.Apply(SwiftTodo.Check(id, isCompleted), SwiftTodo.Model([x, y], field, n))
      == SwiftTodo.Model([if x.id == id then x.(completed := isCompleted) else x,
                          if y.id == id then y.(completed := isCompleted) else y], field, n)
  {
    var r := Consistent.Apply(SwiftTodo.Check(id, isCompleted), SwiftTodo.Model([x, y], field, n));
    assert |r.entries| == 2;
  }

  lemma DeleteStep(id: int, x: Entry, y: Entry, field: string, n: int)
    requires x.id != id && y.id == id
    ensures Consistent.Apply(SwiftTodo.Delete(id), SwiftTodo.Model([x, y], field, n))
      == SwiftTodo.Model([x], field, n)
  {
    assert [x, y][1..] == [y];
    assert Reject([x, y], HasId(id)) == [x] + Reject([y], HasId(id));
  }

  lemma DeleteFirstStep(id: int, x: Entry, y: Entry, field: string, n: int)
    requires x.id == id && y.id != id
    ensures Consistent.Apply(SwiftTodo.Delete(id), SwiftTodo.Model([x, y], field, n))
      == SwiftTodo.Model([y], field, n)
  {
    assert [x, y][1..] == [y];
    assert Reject([y], HasId(id)) == [y] + Reject([], HasId(id));
  }

  lemma DeleteAllCompletedStep(x: Entry, y: Entry, field: string, n: int)
    requires x.completed && !y.completed
    ensures Consistent.Apply(SwiftTodo.DeleteAllCompleted, SwiftTodo.Model([x, y], field, n))
      == SwiftTodo.Model([y], field, n)
  {
    assert [x, y][1..] == [y];
    assert Reject([y], IsCompleted) == [y] + Reject([], IsCompleted);
  }

  /** Short histories spelled out step by step, for any transition. */
  lemma TwoSteps<Msg, M>(step: (Msg, M) -> M, m: M, a: Msg, b: Msg, x: M, y: M)
    requires step(a, m) == x && step(b, x) == y
    ensures Engine.History(step, m, [a, b]) == [x, y]
  {
    assert [a, b][1..] == [b];
  }

  lemma ThreeSteps<Msg, M>(step: (Msg, M) -> M, m: M, a: Msg, b: Msg, c: Msg, x: M, y: M, z: M)
    requires step(a, m) == x && step(b, x) == y && step(c, y) == z
    ensures Engine.History(step, m, [a, b, c]) == [x, y, z]
  {
    assert [a, b, c][1..] == [b, c];
    TwoSteps(step, x, b, c, y, z);
  }

  lemma FourSteps<Msg, M>(step: (Msg, M) -> M, m: M, a: Msg, b: Msg, c: Msg, d: Msg, x: M, y: M, z: M, w: M)
    requires step(a, m) == x && step(b, x) == y && step(c, y) == z && step(d, z) == w
    ensures Engine.History(step, m, [a, b, c, d]) == [x, y, z, w]
  {
    assert [a, b, c, d][1..] == [b, c, d];
    ThreeSteps(step, x, b, c, d, y, z, w);
  }

  /** The first four messages: the first text is added, a blank Add only
      advances the next id, and the second text is typed. */
  lemma TimeTravelOpening(forward: string, deleteThis: string)
    requires !IsBlank(forward)
    ensures var f := Entry(0, forward, false);
      var msgs := [SwiftTodo.UpdateNewEntryField(forward), SwiftTodo.Add, SwiftTodo.Add,
                   SwiftTodo.UpdateNewEntryField(deleteThis)];
      Engine.History(Consistent.Apply, SwiftTodo.Init(), msgs)
        == [SwiftTodo.Model([], forward, 0), SwiftTodo.Model([f], "", 1),
            SwiftTodo.Model([f], "", 2), SwiftTodo.Model([f], deleteThis, 2)]
  {
    var f := Entry(0, forward, false);
    var h0 := SwiftTodo.Model([], forward, 0);
    var h1 := SwiftTodo.Model([f], "", 1);
    var h2 := SwiftTodo.Model([f], "", 2);
    var h3 := SwiftTodo.Model([f], deleteThis, 2);
    SwiftTodo.DefaultModelIsEmpty();
    UpdateStep(forward, SwiftTodo.Init());
    assert Consistent.Apply(SwiftTodo.Add, h0) == h1 by {
      AddStep(h0);
      assert [] + [f] == [f];
    }
    assert Consistent.Apply(SwiftTodo.Add, h1) == h2 by {
      assert IsBlank("");
      AddStep(h1);
    }
    UpdateStep(deleteThis, h2);
    FourSteps(Consistent.Apply, SwiftTodo.Init(), SwiftTodo.UpdateNewEntryField(forward), SwiftTodo.Add,
      SwiftTodo.Add, SwiftTodo.UpdateNewEntryField(deleteThis), h0, h1, h2, h3);
  }

  /** The next four messages: the second text is added and deleted again,
      and two more texts are typed. */
  lemma TimeTravelDetour(forward: string, deleteThis: string, inTime: string, backward: string)
    requires !IsBlank(deleteThis)
    ensures var f := Entry(0, forward, false);
      var msgs := [SwiftTodo.Add, SwiftTodo.Delete(2), SwiftTodo.UpdateNewEntryField(inTime),
                   SwiftTodo.UpdateNewEntryField(backward)];
      Engine.History(Consistent.Apply, SwiftTodo.Model([f], deleteThis, 2), msgs)
        == [SwiftTodo.Model([f, Entry(2, deleteThis, false)], "", 3), SwiftTodo.Model([f], "", 3),
            SwiftTodo.Model([f], inTime, 3), SwiftTodo.Model([f], backward, 3)]
  {
    var f, d := Entry(0, forward, false), Entry(2, deleteThis, false);
    var h3 := SwiftTodo.Model([f], deleteThis, 2);
    var h4 := SwiftTodo.Model([f, d], "", 3);
    var h5 := SwiftTodo.Model([f], "", 3);
    var h6 := SwiftTodo.Model([f], inTime, 3);
    var h7 := SwiftTodo.Model([f], backward, 3);
    assert Consistent.Apply(SwiftTodo.Add, h3) == h4 by {
      AddStep(h3);
      assert [f] + [d] == [f, d];
    }
    DeleteStep(2, f, d, "", 3);
    UpdateStep(inTime, h5);
    UpdateStep(backward, h6);
    FourSteps(Consistent.Apply, h3, SwiftTodo.Add, SwiftTodo.Delete(2), SwiftTodo.UpdateNewEntryField(inTime),
      SwiftTodo.UpdateNewEntryField(backward), h4, h5, h6, h7);
  }

  /** The next three messages: the last text is added, then the first and
      the new entry are checked. */
  lemma TimeTravelChecks(forward: string, backward: string)
    requires !IsBlank(backward)
    ensures var f, b := Entry(0, forward, false), Entry(3, backward, false);
      var msgs := [SwiftTodo.Add, SwiftTodo.Check(0, true), SwiftTodo.Check(3, true)];
      Engine.History(Consistent.Apply, SwiftTodo.Model([f], backward, 3), msgs)
        == [SwiftTodo.Model([f, b], "", 4), SwiftTodo.Model([f.(completed := true), b], "", 4),
            SwiftTodo.Model([f.(completed := true), b.(completed := true)], "", 4)]
  {
    var f, b := Entry(0, forward, false), Entry(3, backward, false);
    var fDone, bDone := f.(completed := true), b.(completed := true);
    var h7 := SwiftTodo.Model([f], backward, 3);
    var h8 := SwiftTodo.Model([f, b], "", 4);
    var h9 := SwiftTodo.Model([fDone, b], "", 4);
    var h10 := SwiftTodo.Model([fDone, bDone], "", 4);
    assert Consistent.Apply(SwiftTodo.Add, h7) == h8 by {
      AddStep(h7);
      assert [f] + [b] == [f, b];
    }
    CheckStep(0, true, f, b, "", 4);
    CheckStep(3, true, fDone, b, "", 4);
    ThreeSteps(Consistent.Apply, h7, SwiftTodo.Add, SwiftTodo.Check(0, true), SwiftTodo.Check(3, true), h8, h9, h10);
  }

  /** The last two messages: the new entry is unchecked and the completed
      first entry is cleared away. */
  lemma TimeTravelClosing(forward: string, backward: string)
    ensures var fDone, b := Entry(0, forward, true), Entry(3, backward, false);
      var msgs := [SwiftTodo.Check(3, false), SwiftTodo.DeleteAllCompleted];
      Engine.History(Consistent.Apply, SwiftTodo.Model([fDone, b.(completed := true)], "", 4), msgs)
        == [SwiftTodo.Model([fDone, b], "", 4), SwiftTodo.Model([b], "", 4)]
  {
    var fDone, b := Entry(0, forward, true), Entry(3, backward, false);
    var bDone := b.(completed := true);
    CheckStep(3, false, fDone, bDone, "", 4);
    DeleteAllCompletedStep(fDone, b, "", 4);
    TwoSteps(Consistent.Apply, SwiftTodo.Model([fDone, bDone], "", 4), SwiftTodo.Check(3, false),
      SwiftTodo.DeleteAllCompleted, SwiftTodo.Model([fDone, b], "", 4), SwiftTodo.Model([b], "", 4));
  }

  /** The four chunks the proof works through make up the scenario. */
  lemma TimeTravelChunks(forward: string, deleteThis: string, inTime: string, backward: string)
    ensures var f, b := Entry(0, forward, false), Entry(3, backward, false);
      var fDone, bDone := f.(completed := true), b.(completed := true);
      && TimeTravelMessagesFor(forward, deleteThis, inTime, backward)
         == [SwiftTodo.UpdateNewEntryField(forward), SwiftTodo.Add, SwiftTodo.Add,
             SwiftTodo.UpdateNewEntryField(deleteThis)]
            + ([SwiftTodo.Add, SwiftTodo.Delete(2), SwiftTodo.UpdateNewEntryField(inTime),
                SwiftTodo.UpdateNewEntryField(backward)]
               + ([SwiftTodo.Add, SwiftTodo.Check(0, true), SwiftTodo.Check(3, true)]
                  + [SwiftTodo.Check(3, false), SwiftTodo.DeleteAllCompleted]))
      && ExpectedHistoryFor(forward, deleteThis, inTime, backward)
         == [SwiftTodo.Model([], forward, 0), SwiftTodo.Model([f], "", 1),
             SwiftTodo.Model([f], "", 2), SwiftTodo.Model([f], deleteThis, 2)]
            + ([SwiftTodo.Model([f, Entry(2, deleteThis, false)], "", 3), SwiftTodo.Model([f], "", 3),
                SwiftTodo.Model([f], inTime, 3), SwiftTodo.Model([f], backward, 3)]
               + ([SwiftTodo.Model([f, b], "", 4), SwiftTodo.Model([fDone, b], "", 4),
                   SwiftTodo.Model([fDone, bDone], "", 4)]
                  + [SwiftTodo.Model([fDone, b], "", 4), SwiftTodo.Model([b], "", 4)]))
  {
  }

  /** Under the corrected transitions the time-travel scenario produces
      exactly the expected thirteen models, whatever the three added texts
      are, provided they are not blank. */
  lemma TimeTravelForAnyTexts(forward: string, deleteThis: string, inTime: string, backward: string)
    requires !IsBlank(forward) && !IsBlank(deleteThis) && !IsBlank(backward)
    ensures Consistent.RunWithHistory(SwiftTodo.Init(), TimeTravelMessagesFor(forward, deleteThis, inTime, backward))
         == ExpectedHistoryFor(forward, deleteThis, inTime, backward)
  {
    var f, b := Entry(0, forward, false), Entry(3, backward, false);
    var a1 := [SwiftTodo.UpdateNewEntryField(forward), SwiftTodo.Add, SwiftTodo.Add,
               SwiftTodo.UpdateNewEntryField(deleteThis)];
    var a2 := [SwiftTodo.Add, SwiftTodo.Delete(2), SwiftTodo.UpdateNewEntryField(inTime),
               SwiftTodo.UpdateNewEntryField(backward)];
    var a3 := [SwiftTodo.Add, SwiftTodo.Check(0, true), SwiftTodo.Check(3, true)];
    var a4 := [SwiftTodo.Check(3, false), SwiftTodo.DeleteAllCompleted];
    var h3 := SwiftTodo.Model([f], deleteThis, 2);
    var h7 := SwiftTodo.Model([f], backward, 3);
    TimeTravelChunks(forward, deleteThis, inTime, backward);
    TimeTravelOpening(forward, deleteThis);
    TimeTravelDetour(forward, deleteThis, inTime, backward);
    TimeTravelChecks(forward, backward);
    TimeTravelClosing(forward, backward);
    Engine.HistoryLastIsFold(Consistent.Apply, SwiftTodo.Init(), a1);
    Engine.HistoryLastIsFold(Consistent.Apply, h3, a2);
    Engine.HistoryLastIsFold(Consistent.Apply, h7, a3);
    Engine.HistoryAppend(Consistent.Apply, h7, a3, a4);
    Engine.HistoryAppend(Consistent.Apply, h3, a2, a3 + a4);
    Engine.HistoryAppend(Consistent.Apply, SwiftTodo.Init(), a1, a2 + (a3 + a4));
  }

  /** The time-travel test's expectation holds of the corrected transitions. */
  lemma TimeTravel()
    ensures Consistent.RunWithHistory(SwiftTodo.Init(), TimeTravelMessages) == ExpectedHistory
  {
    NonWhitespaceIsNotBlank(Forward, 0);
    NonWhitespaceIsNotBlank(DeleteThis, 0);
    NonWhitespaceIsNotBlank(Backward, 0);
    TimeTravelForAnyTexts(Forward, DeleteThis, "go in time", Backward);
  }

  /** The run of the time-travel messages ends with only entry 3 left and
      the next id at 4. */
  lemma TimeTravelFinalModel()
    ensures Consistent.Run(SwiftTodo.Init(), TimeTravelMessages)
         == SwiftTodo.Model([Entry(3, Backward, false)], "", 4)
  {
    TimeTravel();
  }

  /** Swift's Check as written on a two-entry list whose first entry is the
      one named: the second entry is lost. */
  lemma SwiftCheckStep(id: int, isCompleted: bool, x: Entry, y: Entry, field: string, n: int)
    requires x.id == id && y.id != id
    ensures SwiftTodo.Apply(SwiftTodo.Check(id, isCompleted), SwiftTodo.Model([x, y], field, n))
      == SwiftTodo.Model([x.(completed := isCompleted)], field, n)
  {
    assert [x, y][1..] == [y];
    assert [y][1..] == [];
  }

  /** The scenario split after its ninth message, where the first Check comes. */
  lemma TimeTravelBeforeChecks(forward: string, deleteThis: string, inTime: string, backward: string)
    ensures TimeTravelMessagesFor(forward, deleteThis, inTime, backward)
         == [SwiftTodo.UpdateNewEntryField(forward), SwiftTodo.Add, SwiftTodo.Add,
             SwiftTodo.UpdateNewEntryField(deleteThis), SwiftTodo.Add, SwiftTodo.Delete(2),
             SwiftTodo.UpdateNewEntryField(inTime), SwiftTodo.UpdateNewEntryField(backward), SwiftTodo.Add]
            + [SwiftTodo.Check(0, true), SwiftTodo.Check(3, true), SwiftTodo.Check(3, false),
               SwiftTodo.DeleteAllCompleted]
    ensures var f, b := Entry(0, forward, false), Entry(3, backward, false);
      && ExpectedHistoryFor(forward, deleteThis, inTime, backward)[8] == SwiftTodo.Model([f, b], "", 4)
      && ExpectedHistoryFor(forward, deleteThis, inTime, backward)[9]
         == SwiftTodo.Model([f.(completed := true), b], "", 4)
  {
  }

  /** No Check comes before the tenth message, so up to there the
      corrected history is Swift's. */
  lemma TimeTravelPrefixIsSwift(forward: string, deleteThis: string, inTime: string, backward: string)
    ensures var p := [SwiftTodo.UpdateNewEntryField(forward), SwiftTodo.Add, SwiftTodo.Add,
                      SwiftTodo.UpdateNewEntryField(deleteThis), SwiftTodo.Add, SwiftTodo.Delete(2),
                      SwiftTodo.UpdateNewEntryField(inTime), SwiftTodo.UpdateNewEntryField(backward), SwiftTodo.Add];
      Engine.History(SwiftTodo.Apply, SwiftTodo.Init(), p) == Engine.History(Consistent.Apply, SwiftTodo.Init(), p)
  {
    var p := [SwiftTodo.UpdateNewEntryField(forward), SwiftTodo.Add, SwiftTodo.Add,
              SwiftTodo.UpdateNewEntryField(deleteThis), SwiftTodo.Add, SwiftTodo.Delete(2),
              SwiftTodo.UpdateNewEntryField(inTime), SwiftTodo.UpdateNewEntryField(backward), SwiftTodo.Add];
    forall i, x | 0 <= i < |p|
      ensures SwiftTodo.Apply(p[i], x) == Consistent.Apply(p[i], x)
    {
      Consistent.AgreesWithSwiftExceptCheck(p[i], x);
    }
    Engine.HistoriesAgree(SwiftTodo.Apply, Consistent.Apply, SwiftTodo.Init(), p);
  }

  /** Swift as written follows the expected history for the first nine
      models and then departs from it: the first Check drops entry 3 along
      with everything else it does not name. */
  lemma SwiftTimeTravelDiverges(forward: string, deleteThis: string, inTime: string, backward: string)
    requires !IsBlank(forward) && !IsBlank(deleteThis) && !IsBlank(backward)
    ensures var msgs := TimeTravelMessagesFor(forward, deleteThis, inTime, backward);
      var expected := ExpectedHistoryFor(forward, deleteThis, inTime, backward);
      var h := SwiftTodo.RunWithHistory(SwiftTodo.Init(), msgs);
      && h[..9] == expected[..9]
      && h[9] == SwiftTodo.Model([Entry(0, forward, true)], "", 4)
      && h[9] != expected[9]
  {
    var msgs := TimeTravelMessagesFor(forward, deleteThis, inTime, backward);
    var expected := ExpectedHistoryFor(forward, deleteThis, inTime, backward);
    var p := [SwiftTodo.UpdateNewEntryField(forward), SwiftTodo.Add, SwiftTodo.Add,
              SwiftTodo.UpdateNewEntryField(deleteThis), SwiftTodo.Add, SwiftTodo.Delete(2),
              SwiftTodo.UpdateNewEntryField(inTime), SwiftTodo.UpdateNewEntryField(backward), SwiftTodo.Add];
    var q := [SwiftTodo.Check(0, true), SwiftTodo.Check(3, true), SwiftTodo.Check(3, false),
              SwiftTodo.DeleteAllCompleted];
    var f, b := Entry(0, forward, false), Entry(3, backward, false);
    TimeTravelBeforeChecks(forward, deleteThis, inTime, backward);
    TimeTravelForAnyTexts(forward, deleteThis, inTime, backward);
    var corrected := Engine.History(Consistent.Apply, SwiftTodo.Init(), msgs);
    var swift := Engine.History(SwiftTodo.Apply, SwiftTodo.Init(), msgs);
    assert corrected == expected;
    Engine.HistoryAppend(Consistent.Apply, SwiftTodo.Init(), p, q);
    Engine.HistoryAppend(SwiftTodo.Apply, SwiftTodo.Init(), p, q);
    TimeTravelPrefixIsSwift(forward, deleteThis, inTime, backward);
    var prefix := Engine.History(SwiftTodo.Apply, SwiftTodo.Init(), p);
    assert prefix == Engine.History(Consistent.Apply, SwiftTodo.Init(), p);
    assert swift[..9] == prefix == corrected[..9];
    Engine.HistoryLastIsFold(SwiftTodo.Apply, SwiftTodo.Init(), p);
    assert Engine.Fold(SwiftTodo.Apply, SwiftTodo.Init(), p) == SwiftTodo.Model([f, b], "", 4) by {
      assert prefix[8] == corrected[8];
    }
    SwiftCheckStep(0, true, f, b, "", 4);
  }

  /** The Ruby messages are the Swift messages, translated one by one. */
  lemma RubyMessagesCorrespond(forward: string, deleteThis: string, inTime: string, backward: string)
    ensures var swift := TimeTravelMessagesFor(forward, deleteThis, inTime, backward);
      var ruby := RubyTimeTravelMessagesFor(forward, deleteThis, inTime, backward);
      |ruby| == |swift| && forall i :: 0 <= i < |swift| ==> ruby[i] == Consistent.ToRubyMsg(swift[i])
  {
  }

  /** The Ruby scenario split after its third message, the blank Add. */
  lemma RubyTimeTravelOpening(forward: string, deleteThis: string, inTime: string, backward: string)
    ensures RubyTimeTravelMessagesFor(forward, deleteThis, inTime, backward)
         == [RubyTodo.UpdateNewEntryField(Some(forward)), RubyTodo.Add, RubyTodo.Add]
            + [RubyTodo.UpdateNewEntryField(Some(deleteThis)), RubyTodo.Add, RubyTodo.Delete(2),
               RubyTodo.UpdateNewEntryField(Some(inTime)), RubyTodo.UpdateNewEntryField(Some(backward)),
               RubyTodo.Add, RubyTodo.Check(0, true), RubyTodo.Check(3, true), RubyTodo.Check(3, false),
               RubyTodo.DeleteAllCompleted]
    ensures var f := Entry(0, forward, false);
      && ExpectedHistoryFor(forward, deleteThis, inTime, backward)[0] == SwiftTodo.Model([], forward, 0)
      && ExpectedHistoryFor(forward, deleteThis, inTime, backward)[1] == SwiftTodo.Model([f], "", 1)
      && ExpectedHistoryFor(forward, deleteThis, inTime, backward)[2] == SwiftTodo.Model([f], "", 2)
  {
  }

  /** Ruby as written follows the expected history for two models and then
      departs from it: the Add on the cleared field leaves the next id at 1
      where the test expects 2, so the later entries get ids one too low. */
  lemma RubyTimeTravelDiverges(forward: string, deleteThis: string, inTime: string, backward: string)
    requires !IsBlank(forward)
    ensures var expected := ExpectedHistoryFor(forward, deleteThis, inTime, backward);
      var h := Engine.History(RubyTodo.ApplyTo, RubyTodo.New(), RubyTimeTravelMessagesFor(forward, deleteThis, inTime, backward));
      && h[0] == Consistent.ToRuby(expected[0])
      && h[1] == Consistent.ToRuby(expected[1])
      && h[2] == Consistent.ToRuby(expected[2]).(nextId := 1)
      && h[2] != Consistent.ToRuby(expected[2])
  {
    var f := Entry(0, forward, false);
    var start := RubyTodo.Model([], Some(""), 0);
    var r0 := RubyTodo.Model([], Some(forward), 0);
    var r1 := RubyTodo.Model([f], Some(""), 1);
    var p := [RubyTodo.UpdateNewEntryField(Some(forward)), RubyTodo.Add, RubyTodo.Add];
    var q := [RubyTodo.UpdateNewEntryField(Some(deleteThis)), RubyTodo.Add, RubyTodo.Delete(2),
              RubyTodo.UpdateNewEntryField(Some(inTime)), RubyTodo.UpdateNewEntryField(Some(backward)),
              RubyTodo.Add, RubyTodo.Check(0, true), RubyTodo.Check(3, true), RubyTodo.Check(3, false),
              RubyTodo.DeleteAllCompleted];
    RubyTodo.DefaultModelIsEmpty();
    RubyTimeTravelOpening(forward, deleteThis, inTime, backward);
    BlankObjectAgreesOnStrings(forward);
    BlankObjectAgreesOnStrings("");
    assert IsBlank("");
    assert RubyTodo.ApplyTo(p[0], start) == r0 by {
      assert RubyTodo.ApplyTo(p[0], start) == RubyTodo.ApplyUpdateNewEntryField(Some(forward), start);
    }
    assert RubyTodo.ApplyTo(RubyTodo.Add, r0) == r1 by {
      assert RubyTodo.ApplyTo(RubyTodo.Add, r0) == RubyTodo.ApplyAdd(r0);
      assert [] + [f] == [f];
    }
    assert RubyTodo.ApplyTo(RubyTodo.Add, r1) == r1 by {
      assert RubyTodo.ApplyTo(RubyTodo.Add, r1) == RubyTodo.ApplyAdd(r1);
    }
    ThreeSteps(RubyTodo.ApplyTo, start, p[0], RubyTodo.Add, RubyTodo.Add, r0, r1, r1);
    Engine.HistoryAppend(RubyTodo.ApplyTo, start, p, q);
  }

  /** Swift as written departs from the time-travel test's expectation at
      element 9. */
  lemma SwiftBreaksTimeTravelTest()
    ensures SwiftTodo.RunWithHistory(SwiftTodo.Init(), TimeTravelMessages)[9] != ExpectedHistory[9]
  {
    NonWhitespaceIsNotBlank(Forward, 0);
    NonWhitespaceIsNotBlank(DeleteThis, 0);
    NonWhitespaceIsNotBlank(Backward, 0);
    SwiftTimeTravelDiverges(Forward, DeleteThis, "go in time", Backward);
  }

  /** Ruby as written departs from the time-travel test's expectation at
      element 2, and only in the next id. */
  lemma RubyBreaksTimeTravelTest()
    ensures var h := RubyTodo.RunWithHistory(RubyTodo.New(), RubyTimeTravelMessages);
      && h[2] == Consistent.ToRuby(ExpectedHistory[2]).(nextId := 1)
      && h[2] != Consistent.ToRuby(ExpectedHistory[2])
  {
    NonWhitespaceIsNotBlank(Forward, 0);
    RubyTimeTravelDiverges(Forward, DeleteThis, "go in time", Backward);
  }

  /** The two entries both unit-test suites start from. */
  const PatHead := Entry(10, "Pat head", false)
  const RubTummy := Entry(11, "Rub tummy", false)

  /** The unit tests' fixture gets the default next id, one past entry 11. */
  lemma FixturesStartAtTwelve()
    ensures SwiftTodo.Init(entries := [PatHead, RubTummy]) == SwiftTodo.Model([PatHead, RubTummy], "", 12)
    ensures RubyTodo.New(entries := [PatHead, RubTummy]) == RubyTodo.Model([PatHead, RubTummy], Some(""), 12)
  {
    var n := DefaultNextId([PatHead, RubTummy]);
    assert n - 1 == 10 || n - 1 == 11;
  }

  /** Swift's Check on the fixture's first entry loses the second entry, so
      the Check test's read of `entries[1]` is out of range, and the
      DeleteAllCompleted test ends with no entry instead of entry 11. */
  lemma SwiftBreaksCheckTests()
    ensures var m := SwiftTodo.Init(entries := [PatHead, RubTummy]);
      && SwiftTodo.Run(m, [SwiftTodo.Check(10, true)]).entries == [PatHead.(completed := true)]
      && SwiftTodo.Run(m, [SwiftTodo.Check(10, true), SwiftTodo.DeleteAllCompleted]).entries == []
  {
    FixturesStartAtTwelve();
    var m := SwiftTodo.Model([PatHead, RubTummy], "", 12);
    var checked := SwiftTodo.Model([PatHead.(completed := true)], "", 12);
    SwiftCheckStep(10, true, PatHead, RubTummy, "", 12);
    assert SwiftTodo.Run(m, [SwiftTodo.Check(10, true)]) == checked by {
      assert SwiftTodo.RunWithHistory(m, [SwiftTodo.Check(10, true)])[0] == checked;
    }
    var cleared := SwiftTodo.Apply(SwiftTodo.DeleteAllCompleted, checked);
    assert cleared.entries == [] by {
      assert [PatHead.(completed := true)][1..] == [];
    }
    var msgs := [SwiftTodo.Check(10, true), SwiftTodo.DeleteAllCompleted];
    assert SwiftTodo.Run(m, msgs) == cleared by {
      assert SwiftTodo.RunWithHistory(m, msgs)[1] == SwiftTodo.Apply(msgs[1], SwiftTodo.RunWithHistory(m, msgs)[0]);
    }
  }

  /** The unit tests' fixture, as the Swift model sees it. */
  const Fixture := SwiftTodo.Model([PatHead, RubTummy], "", 12)

  /** The corrected transitions meet the Check unit test's expectation. */
  lemma CheckTestHolds()
    ensures Consistent.Run(SwiftTodo.Init(entries := [PatHead, RubTummy]), [SwiftTodo.Check(10, true)]).entries
         == [PatHead.(completed := true), RubTummy]
  {
    FixturesStartAtTwelve();
    var one := [SwiftTodo.Check(10, true)];
    CheckStep(10, true, PatHead, RubTummy, "", 12);
    assert Consistent.RunWithHistory(Fixture, one)[0] == Consistent.Apply(one[0], Fixture);
  }

  /** The corrected transitions meet the uncheck unit test's expectation. */
  lemma UncheckTestHolds()
    ensures var msgs := [SwiftTodo.Check(10, true), SwiftTodo.Check(11, true), SwiftTodo.Check(10, false)];
      Consistent.Run(SwiftTodo.Init(entries := [PatHead, RubTummy]), msgs).entries
        == [PatHead, RubTummy.(completed := true)]
  {
    FixturesStartAtTwelve();
    var patDone, rubDone := PatHead.(completed := true), RubTummy.(completed := true);
    var c1 := SwiftTodo.Model([patDone, RubTummy], "", 12);
    var c2 := SwiftTodo.Model([patDone, rubDone], "", 12);
    CheckStep(10, true, PatHead, RubTummy, "", 12);
    CheckStep(11, true, patDone, RubTummy, "", 12);
    CheckStep(10, false, patDone, rubDone, "", 12);
    var three := [SwiftTodo.Check(10, true), SwiftTodo.Check(11, true), SwiftTodo.Check(10, false)];
    var h := Consistent.RunWithHistory(Fixture, three);
    assert h[0] == c1;
    assert h[1] == Consistent.Apply(three[1], h[0]) == c2;
    assert h[2] == Consistent.Apply(three[2], h[1]);
  }

  /** The corrected transitions meet the DeleteAllCompleted unit test's expectation. */
  lemma DeleteAllCompletedTestHolds()
    ensures var msgs := [SwiftTodo.Check(10, true), SwiftTodo.DeleteAllCompleted];
      Ids(Consistent.Run(SwiftTodo.Init(entries := [PatHead, RubTummy]), msgs).entries) == [11]
  {
    FixturesStartAtTwelve();
    var patDone := PatHead.(completed := true);
    CheckStep(10, true, PatHead, RubTummy, "", 12);
    DeleteAllCompletedStep(patDone, RubTummy, "", 12);
    var two := [SwiftTodo.Check(10, true), SwiftTodo.DeleteAllCompleted];
    var h := Consistent.RunWithHistory(Fixture, two);
    assert h[0] == SwiftTodo.Model([patDone, RubTummy], "", 12);
    assert h[1] == Consistent.Apply(two[1], h[0]) == SwiftTodo.Model([RubTummy], "", 12);
  }

  /** The corrected transitions, and Ruby as written, meet the
      UpdateNewEntryField unit test's expectation: the field holds the typed
      text. */
  lemma UpdateTestHolds()
    ensures Consistent.Run(SwiftTodo.Init(entries := [PatHead, RubTummy]),
      [SwiftTodo.UpdateNewEntryField("typing away")]).newEntryField == "typing away"
    ensures var r := RubyTodo.Run(RubyTodo.New(entries := [PatHead, RubTummy]),
      [RubyTodo.UpdateNewEntryField(Some("typing away"))]);
      r.Some? && r.value.newEntryField == Some("typing away")
  {
    FixturesStartAtTwelve();
    var one := [SwiftTodo.UpdateNewEntryField("typing away")];
    UpdateStep("typing away", Fixture);
    assert Consistent.RunWithHistory(Fixture, one)[0] == Consistent.Apply(one[0], Fixture);
    var rubyOne := [RubyTodo.UpdateNewEntryField(Some("typing away"))];
    var cleared := RubyTodo.Model([PatHead, RubTummy], Some(""), 12);
    assert RubyTodo.RunWithHistory(cleared, rubyOne)[0] == RubyTodo.ApplyTo(rubyOne[0], cleared);
  }

  /** The corrected transitions meet the Add unit test's expectation. */
  lemma AddTestHolds()
    ensures var msgs := [SwiftTodo.UpdateNewEntryField("hop on one foot"), SwiftTodo.Add];
      var r := Consistent.Run(SwiftTodo.Init(entries := [PatHead, RubTummy]), msgs);
      |r.entries| == 3 && r.entries[2] == Entry(12, "hop on one foot", false)
  {
    FixturesStartAtTwelve();
    NonWhitespaceIsNotBlank("hop on one foot", 0);
    var typed := Fixture.(newEntryField := "hop on one foot");
    var adds := [SwiftTodo.UpdateNewEntryField("hop on one foot"), SwiftTodo.Add];
    UpdateStep("hop on one foot", Fixture);
    AddStep(typed);
    var h := Consistent.RunWithHistory(Fixture, adds);
    assert h[0] == typed;
    assert h[1] == Consistent.Apply(adds[1], h[0]);
    assert h[1].entries == [PatHead, RubTummy] + [Entry(12, "hop on one foot", false)];
  }

  /** The corrected transitions meet the blank-Add unit test's expectation, and the two
      blank Adds still consume ids 12 and 13. */
  lemma BlankAddTestHolds()
    ensures var msgs := [SwiftTodo.UpdateNewEntryField(""), SwiftTodo.Add,
                         SwiftTodo.UpdateNewEntryField("     "), SwiftTodo.Add];
      var r := Consistent.Run(SwiftTodo.Init(entries := [PatHead, RubTummy]), msgs);
      r.entries == [PatHead, RubTummy] && r.nextId == 14
  {
    FixturesStartAtTwelve();
    EmptyAndSpacesAreBlank();
    var blanks := [SwiftTodo.UpdateNewEntryField(""), SwiftTodo.Add,
                   SwiftTodo.UpdateNewEntryField("     "), SwiftTodo.Add];
    var spaces := SwiftTodo.Model([PatHead, RubTummy], "     ", 13);
    UpdateStep("", Fixture);
    AddStep(Fixture);
    UpdateStep("     ", Fixture.(nextId := 13));
    AddStep(spaces);
    var h := Consistent.RunWithHistory(Fixture, blanks);
    assert h[0] == Fixture;
    assert h[1] == Consistent.Apply(blanks[1], h[0]) == Fixture.(nextId := 13);
    assert h[2] == Consistent.Apply(blanks[2], h[1]) == spaces;
    assert h[3] == Consistent.Apply(blanks[3], h[2]);
  }

  /** The corrected transitions meet the Delete unit test's expectation. */
  lemma DeleteTestHolds()
    ensures Ids(Consistent.Run(SwiftTodo.Init(entries := [PatHead, RubTummy]), [SwiftTodo.Delete(10)]).entries) == [11]
  {
    FixturesStartAtTwelve();
    DeleteFirstStep(10, PatHead, RubTummy, "", 12);
    var one := [SwiftTodo.Delete(10)];
    assert Consistent.RunWithHistory(Fixture, one)[0] == Consistent.Apply(one[0], Fixture);
  }

  /** Ruby as written meets the blank-Add test's expectation, field reset
      to nil included, and its blank Adds leave the next id at 12. */
  lemma RubyBlankAddTestHolds()
    ensures var m := RubyTodo.New(entries := [PatHead, RubTummy]);
      var msgs := [RubyTodo.UpdateNewEntryField(None), RubyTodo.Add,
                   RubyTodo.UpdateNewEntryField(Some("     ")), RubyTodo.Add];
      var r := RubyTodo.Run(m, msgs);
      r.Some? && r.value.entries == [PatHead, RubTummy] && r.value.nextId == 12
  {
    FixturesStartAtTwelve();
    EmptyAndSpacesAreBlank();
    var m := RubyTodo.Model([PatHead, RubTummy], None, 12);
    var cleared := RubyTodo.Model([PatHead, RubTummy], Some(""), 12);
    var spaces := RubyTodo.Model([PatHead, RubTummy], Some("     "), 12);
    var msgs := [RubyTodo.UpdateNewEntryField(None), RubyTodo.Add,
                 RubyTodo.UpdateNewEntryField(Some("     ")), RubyTodo.Add];
    var h := RubyTodo.RunWithHistory(cleared, msgs);
    assert h[0] == RubyTodo.ApplyUpdateNewEntryField(None, cleared) == m;
    assert h[1] == RubyTodo.ApplyTo(msgs[1], h[0]) == RubyTodo.ApplyAdd(m) == cleared;
    assert h[2] == RubyTodo.ApplyTo(msgs[2], h[1]) == RubyTodo.ApplyUpdateNewEntryField(Some("     "), cleared) == spaces;
    assert h[3] == RubyTodo.ApplyTo(msgs[3], h[2]) == RubyTodo.ApplyAdd(spaces) == cleared;
    Engine.HistoryLastIsFold(RubyTodo.ApplyTo, cleared, msgs);
  }
}
