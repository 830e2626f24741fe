/** The Swift implementation: `Model`/`Entry` structs with their defaulting
    initialisers and `==`, the `Message` enum with `apply(to:)`, and
    `Engine.run`/`runWithHistory`. */
module SwiftTodo {
  import opened Wrappers
  import opened Blank
  import opened Compaction
  import opened Entries
  import Engine

  datatype Model = Model(entries: seq<Entry>, newEntryField: string, nextId: int)

  /** `Model.init(nextID:newEntryField:entries:)`: a supplied id is stored
      verbatim; an omitted one becomes the least integer above every entry
      id (0 for no entries). */
  function Init(nextId: Option<int> := None, newEntryField: string := "", entries: seq<Entry> := []): (m: Model)
    ensures m.entries == entries && m.newEntryField == newEntryField
    ensures nextId.Some? ==> m.nextId == nextId.value
    ensures nextId.None? ==> IdsBelow(entries, m.nextId)
    ensures nextId.None? && |entries| == 0 ==> m.nextId == 0
    ensures nextId.None? && |entries| > 0 ==> exists i :: 0 <= i < |entries| && entries[i].id == m.nextId - 1
  {
    Model(entries, newEntryField, nextId.GetOr(DefaultNextId(entries)))
  }

  /** `Model()` is the empty list with an empty field and next id 0. */
  lemma DefaultModelIsEmpty()
    ensures Init() == Model([], "", 0)
  {
  }

  /** Entry `==`: field-wise on id, description and completed. */
  function EntryEquals(l: Entry, r: Entry): (b: bool)
    ensures b <==> l == r
  {
    l.id == r.id && l.description == r.description && l.completed == r.completed
  }

  /** Model `==`: field-wise, with the entries compared element by element
      as an ordered sequence. It coincides with value identity. */
  function ModelEquals(l: Model, r: Model): (b: bool)
    ensures b <==> l == r
  {
    var sameEntries := |l.entries| == |r.entries|
      && forall i :: 0 <= i < |l.entries| ==> EntryEquals(l.entries[i], r.entries[i]);
    assert sameEntries ==> l.entries == r.entries;
    l.newEntryField == r.newEntryField && l.nextId == r.nextId && sameEntries
  }

  datatype Message =
    | Add
    | UpdateNewEntryField(text: string)
    | Check(id: int, isCompleted: bool)
    | Delete(id: int)
    | DeleteAllCompleted

  /** `Message.apply(to:)`. */
  function Apply(msg: Message, m: Model): (r: Model)
    ensures r.nextId == if msg.Add? then m.nextId + 1 else m.nextId
    ensures !msg.Add? && !msg.UpdateNewEntryField? ==> r.newEntryField == m.newEntryField
    ensures msg.UpdateNewEntryField? ==> r == m.(newEntryField := msg.text)
    ensures msg.Add? ==> r.newEntryField == ""
    ensures msg.Add? && IsBlank(m.newEntryField) ==> r.entries == m.entries
    ensures msg.Add? && !IsBlank(m.newEntryField) ==>
      r.entries == m.entries + [Entry(m.nextId, m.newEntryField, false)]
    ensures msg.Check? ==> |r.entries| == CountWhere(m.entries, HasId(msg.id))
    ensures msg.Check? ==> forall k :: 0 <= k < |r.entries| ==>
      r.entries[k].id == msg.id && r.entries[k].completed == msg.isCompleted
    ensures msg.Delete? ==> IsSubsequence(r.entries, m.entries)
    ensures msg.Delete? ==> forall k :: 0 <= k < |r.entries| ==>
      r.entries[k] in m.entries && r.entries[k].id != msg.id
    ensures msg.Delete? ==> forall i :: 0 <= i < |m.entries| && m.entries[i].id != msg.id ==>
      m.entries[i] in r.entries
    ensures msg.Delete? ==> |r.entries| == |m.entries| - CountWhere(m.entries, HasId(msg.id))
    ensures msg.DeleteAllCompleted? ==> IsSubsequence(r.entries, m.entries)
    ensures msg.DeleteAllCompleted? ==> forall k :: 0 <= k < |r.entries| ==>
      r.entries[k] in m.entries && !r.entries[k].completed
    ensures msg.DeleteAllCompleted? ==> forall i :: 0 <= i < |m.entries| && !m.entries[i].completed ==>
      m.entries[i] in r.entries
    ensures msg.DeleteAllCompleted? ==> |r.entries| == |m.entries| - CountWhere(m.entries, IsCompleted)
  {
    var newEntries :=
      match msg
      case Add =>
        if !IsBlank(m.newEntryField) then m.entries + [Entry(m.nextId, m.newEntryField)] else m.entries
      case UpdateNewEntryField(_) => m.entries
      case Check(id, isCompleted) => KeepChecked(m.entries, id, isCompleted)
      // `remove(where:)` is `Reject` by `Compaction.RemoveWhere`'s contract.
      case Delete(id) => (
        RejectIsSubsequence(m.entries, HasId(id));
        RejectLength(m.entries, HasId(id));
        Reject(m.entries, HasId(id)))
      case DeleteAllCompleted => (
        RejectIsSubsequence(m.entries, IsCompleted);
        RejectLength(m.entries, IsCompleted);
        Reject(m.entries, IsCompleted));
    var newField :=
      match msg
      case Add => ""
      case UpdateNewEntryField(s) => s
      case _ => m.newEntryField;
    var newNextId := if msg.Add? then m.nextId + 1 else m.nextId;
    Init(Some(newNextId), newField, newEntries)
  }

  /** The model invariant: ids are pairwise distinct and below `nextId`. */
  predicate Valid(m: Model) {
    UniqueIds(m.entries) && IdsBelow(m.entries, m.nextId)
  }

  /** A model built with a defaulted next id from entries with distinct ids
      satisfies the invariant. */
  lemma InitIsValid(newEntryField: string, entries: seq<Entry>)
    requires UniqueIds(entries)
    ensures Valid(Init(None, newEntryField, entries))
  {
  }

  /** Every message preserves the invariant. */
  lemma ApplyPreservesValid(msg: Message, m: Model)
    requires Valid(m)
    ensures Valid(Apply(msg, m))
  {
    var r := Apply(msg, m);
    match msg
    case Add =>
      if !IsBlank(m.newEntryField) {
        var added := Entry(m.nextId, m.newEntryField, false);
        assert r.entries == m.entries + [added];
        AppendFreshKeepsIds(m.entries, added, m.nextId);
      }
    case UpdateNewEntryField(_) =>
    case Check(id, isCompleted) =>
      assert r.entries == KeepChecked(m.entries, id, isCompleted);
      KeepCheckedKeepsIds(m.entries, id, isCompleted, m.nextId);
    case Delete(id) =>
      assert r.entries == Reject(m.entries, HasId(id));
      RejectKeepsIds(m.entries, HasId(id), m.nextId);
    case DeleteAllCompleted =>
      assert r.entries == Reject(m.entries, IsCompleted);
      RejectKeepsIds(m.entries, IsCompleted, m.nextId);
  }

  /** Deleting the completed entries twice is the same as once. */
  lemma DeleteAllCompletedIdempotent(m: Model)
    ensures Apply(DeleteAllCompleted, Apply(DeleteAllCompleted, m)) == Apply(DeleteAllCompleted, m)
  {
    RejectIdempotent(m.entries, IsCompleted);
  }

  /** Deleting an id no entry has returns an equal model, while checking it
      empties the entry list (the check keeps only matching entries). */
  lemma AbsentId(id: int, isCompleted: bool, m: Model)
    requires forall i :: 0 <= i < |m.entries| ==> m.entries[i].id != id
    ensures Apply(Delete(id), m) == m
    ensures Apply(Check(id, isCompleted), m) == m.(entries := [])
  {
    RejectNothingMatches(m.entries, HasId(id));
  }

  /** Checking returns Ruby's checked copy of just the matching entries. */
  lemma CheckKeepsOnlyMatching(id: int, isCompleted: bool, m: Model)
    ensures Apply(Check(id, isCompleted), m).entries
         == CheckAll(Reject(m.entries, OtherId(id)), id, isCompleted)
  {
    KeepCheckedIsCheckOfMatching(m.entries, id, isCompleted);
  }

  /** `Engine.runWithHistory(on:applying:)`. */
  function RunWithHistory(m: Model, msgs: seq<Message>): (h: seq<Model>)
    ensures |h| == |msgs|
    ensures |msgs| > 0 ==> h[0] == Apply(msgs[0], m)
    ensures forall i {:trigger msgs[i]} :: 0 < i < |msgs| ==> h[i] == Apply(msgs[i], h[i - 1])
  {
    Engine.History(Apply, m, msgs)
  }

  /** `Engine.run(on:applying:)`: the last history element, force-unwrapped,
      so the message list must not be empty. */
  function Run(m: Model, msgs: seq<Message>): (r: Model)
    requires |msgs| > 0
    ensures r == Engine.Fold(Apply, m, msgs)
  {
    var h := RunWithHistory(m, msgs);
    Engine.HistoryLastIsFold(Apply, m, msgs);
    h[|h| - 1]
  }

  /** Starting from a valid model, every model in the history is valid. */
  lemma HistoryIsValid(m: Model, msgs: seq<Message>)
    requires Valid(m)
    ensures forall i :: 0 <= i < |msgs| ==> Valid(RunWithHistory(m, msgs)[i])
  {
    forall msg, x | Valid(x)
      ensures Valid(Apply(msg, x))
    {
      ApplyPreservesValid(msg, x);
    }
    Engine.HistoryPreserves(Apply, Valid, m, msgs);
  }

  /** A sequence that never drops between neighbours never drops at all. */
  lemma {:induction false} StepwiseNondecreasing(xs: seq<int>)
    requires forall i :: 0 < i < |xs| ==> xs[i - 1] <= xs[i]
    ensures forall i, j :: 0 <= i <= j < |xs| ==> xs[i] <= xs[j]
    decreases |xs|
  {
    if |xs| > 1 {
      StepwiseNondecreasing(xs[1..]);
      assert forall j :: 1 <= j < |xs| ==> xs[1] <= xs[j] by {
        forall j | 1 <= j < |xs| ensures xs[1] <= xs[j] {
          assert xs[1..][0] <= xs[1..][j - 1];
        }
      }
    }
  }

  /** Along a history the next id never goes down: it rises by one at each
      `.add` and stays put otherwise. */
  lemma HistoryNextIdNeverDecreases(m: Model, msgs: seq<Message>)
    ensures forall i, j :: 0 <= i <= j < |msgs| ==>
      RunWithHistory(m, msgs)[i].nextId <= RunWithHistory(m, msgs)[j].nextId
    ensures |msgs| > 0 ==> m.nextId <= RunWithHistory(m, msgs)[0].nextId
  {
    var h := RunWithHistory(m, msgs);
    var ids := seq(|h|, i requires 0 <= i < |h| => h[i].nextId);
    forall i | 0 < i < |ids|
      ensures ids[i - 1] <= ids[i]
    {
      assert h[i] == Apply(msgs[i], h[i - 1]);
    }
    StepwiseNondecreasing(ids);
    forall i, j | 0 <= i <= j < |msgs|
      ensures h[i].nextId <= h[j].nextId
    {
      assert ids[i] <= ids[j];
    }
    if |msgs| > 0 {
      assert h[0] == Apply(msgs[0], m);
    }
  }

  /** The history of `a + b` continues from the model `a` ends in. */
  lemma HistoryOfConcatenation(m: Model, a: seq<Message>, b: seq<Message>)
    ensures RunWithHistory(m, a + b) == RunWithHistory(m, a) + RunWithHistory(Engine.Fold(Apply, m, a), b)
    ensures |a| > 0 ==> RunWithHistory(m, a + b) == RunWithHistory(m, a) + RunWithHistory(Run(m, a), b)
  {
    Engine.HistoryAppend(Apply, m, a, b);
  }
}
