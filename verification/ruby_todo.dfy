/** The Ruby implementation: `Model`/`Entry` with keyword-defaulted
    constructors and nil-aware `==`, the five `Msg` classes with `apply_to`,
    and `Engine.run`/`run_with_history`. The new-entry field may hold `nil`
    (written `None`). */
module RubyTodo {
  import opened Wrappers
  import opened Blank
  import opened Compaction
  import opened Entries
  import Engine

  datatype Model = Model(entries: seq<Entry>, newEntryField: Option<string>, nextId: int)

  /** `Model.new(entries: [], new_entry_field: "", next_id: nil)`: a non-nil
      id is stored as given; a nil one becomes the least integer above every
      entry id (0 for no entries). */
  function New(entries: seq<Entry> := [], newEntryField: Option<string> := Some(""), nextId: Option<int> := None): (m: Model)
    ensures m.entries == entries && m.newEntryField == newEntryField
    ensures nextId.Some? ==> m.nextId == nextId.value
    ensures nextId.None? ==> IdsBelow(entries, m.nextId)
    ensures nextId.None? && |entries| == 0 ==> m.nextId == 0
    ensures nextId.None? && |entries| > 0 ==> exists i :: 0 <= i < |entries| && entries[i].id == m.nextId - 1
  {
    Model(entries, newEntryField, nextId.GetOr(DefaultNextId(entries)))
  }

  /** `Model.new` with no arguments is the empty list, field "" and id 0. */
  lemma DefaultModelIsEmpty()
    ensures New() == Model([], Some(""), 0)
  {
  }

  /** `Entry#==`: false against nil, otherwise field-wise. It coincides with
      value identity. */
  function EntryEquals(e: Entry, other: Option<Entry>): (b: bool)
    ensures b <==> other == Some(e)
  {
    other.Some?
    && e.id == other.value.id
    && e.description == other.value.description
    && e.completed == other.value.completed
  }

  /** `Model#==`: false against nil, otherwise field-wise, comparing the
      entry arrays element by element with `Entry#==`. */
  function ModelEquals(m: Model, other: Option<Model>): (b: bool)
    ensures b <==> other == Some(m)
  {
    match other
    case None => false
    case Some(o) =>
      var sameEntries := |m.entries| == |o.entries|
        && forall i :: 0 <= i < |m.entries| ==> EntryEquals(m.entries[i], Some(o.entries[i]));
      assert sameEntries ==> m.entries == o.entries;
      m.newEntryField == o.newEntryField && m.nextId == o.nextId && sameEntries
  }

  datatype Msg =
    | Add
    | UpdateNewEntryField(str: Option<string>)
    | Check(id: int, isCompleted: bool)
    | Delete(id: int)
    | DeleteAllCompleted

  /** `Msg::Add#apply_to`: a non-blank field becomes a new entry at the end
      and consumes the next id; a blank (or nil) field is only cleared, and
      the next id is NOT advanced. */
  function ApplyAdd(m: Model): (r: Model)
    ensures r.newEntryField == Some("")
    ensures IsBlankObject(m.newEntryField) ==> r.entries == m.entries && r.nextId == m.nextId
    ensures !IsBlankObject(m.newEntryField) ==>
      && m.newEntryField.Some?
      && r.entries == m.entries + [Entry(m.nextId, m.newEntryField.value, false)]
      && r.nextId == m.nextId + 1
  {
    var cleared := New(m.entries, Some(""), Some(m.nextId));
    if !IsBlankObject(m.newEntryField) then
      New(m.entries + [Entry(description := m.newEntryField.value, id := m.nextId)], Some(""), Some(m.nextId + 1))
    else
      cleared
  }

  /** `Msg::UpdateNewEntryField#apply_to`: only the field changes. */
  function ApplyUpdateNewEntryField(str: Option<string>, m: Model): (r: Model)
    ensures r.newEntryField == str
    ensures r.entries == m.entries && r.nextId == m.nextId
  {
    New(m.entries, str, Some(m.nextId))
  }

  /** `Msg::Check#apply_to`: same length and id order; matching entries get
      the new flag with their description kept, the others are identical. */
  function ApplyCheck(id: int, isCompleted: bool, m: Model): (r: Model)
    ensures |r.entries| == |m.entries|
    ensures Ids(r.entries) == Ids(m.entries)
    ensures forall i :: 0 <= i < |m.entries| && m.entries[i].id == id ==>
      r.entries[i] == Entry(id, m.entries[i].description, isCompleted)
    ensures forall i :: 0 <= i < |m.entries| && m.entries[i].id != id ==> r.entries[i] == m.entries[i]
    ensures r.newEntryField == m.newEntryField && r.nextId == m.nextId
  {
    var es := CheckAll(m.entries, id, isCompleted);
    assert Ids(es) == Ids(m.entries);
    New(es, m.newEntryField, Some(m.nextId))
  }

  /** `Msg::Delete#apply_to`: exactly the entries with another id, in their
      original order. */
  function ApplyDelete(id: int, m: Model): (r: Model)
    ensures IsSubsequence(r.entries, m.entries)
    ensures forall k :: 0 <= k < |r.entries| ==> r.entries[k] in m.entries && r.entries[k].id != id
    ensures forall i :: 0 <= i < |m.entries| && m.entries[i].id != id ==> m.entries[i] in r.entries
    ensures |r.entries| == |m.entries| - CountWhere(m.entries, HasId(id))
    ensures r.newEntryField == m.newEntryField && r.nextId == m.nextId
  {
    RejectIsSubsequence(m.entries, HasId(id));
    RejectLength(m.entries, HasId(id));
    New(Reject(m.entries, HasId(id)), m.newEntryField, Some(m.nextId))
  }

  /** `Msg::DeleteAllCompleted#apply_to`: exactly the uncompleted entries, in
      their original order. */
  function ApplyDeleteAllCompleted(m: Model): (r: Model)
    ensures IsSubsequence(r.entries, m.entries)
    ensures forall k :: 0 <= k < |r.entries| ==> r.entries[k] in m.entries && !r.entries[k].completed
    ensures forall i :: 0 <= i < |m.entries| && !m.entries[i].completed ==> m.entries[i] in r.entries
    ensures |r.entries| == |m.entries| - CountWhere(m.entries, IsCompleted)
    ensures r.newEntryField == m.newEntryField && r.nextId == m.nextId
  {
    RejectIsSubsequence(m.entries, IsCompleted);
    RejectLength(m.entries, IsCompleted);
    New(Reject(m.entries, IsCompleted), m.newEntryField, Some(m.nextId))
  }

  /** Dispatch to the message's `apply_to`. No message lowers the next id,
      and only an Add raises it, by one. */
  function ApplyTo(msg: Msg, m: Model): (r: Model)
    ensures m.nextId <= r.nextId <= m.nextId + 1
    ensures !msg.Add? ==> r.nextId == m.nextId
  {
    match msg
    case Add => ApplyAdd(m)
    case UpdateNewEntryField(str) => ApplyUpdateNewEntryField(str, m)
    case Check(id, isCompleted) => ApplyCheck(id, isCompleted, m)
    case Delete(id) => ApplyDelete(id, m)
    case DeleteAllCompleted => ApplyDeleteAllCompleted(m)
  }

  /** The model invariant: ids are pairwise distinct and below `next_id`. */
  predicate Valid(m: Model) {
    UniqueIds(m.entries) && IdsBelow(m.entries, m.nextId)
  }

  /** Every message preserves the invariant. */
  lemma ApplyToPreservesValid(msg: Msg, m: Model)
    requires Valid(m)
    ensures Valid(ApplyTo(msg, m))
  {
    match msg
    case Add =>
      if !IsBlankObject(m.newEntryField) {
        AppendFreshKeepsIds(m.entries, Entry(m.nextId, m.newEntryField.value, false), m.nextId);
      }
    case UpdateNewEntryField(_) =>
    case Check(id, isCompleted) =>
      assert Ids(ApplyCheck(id, isCompleted, m).entries) == Ids(m.entries);
    case Delete(id) =>
      RejectKeepsIds(m.entries, HasId(id), m.nextId);
    case DeleteAllCompleted =>
      RejectKeepsIds(m.entries, IsCompleted, m.nextId);
  }

  /** Checking or deleting an id no entry has returns an equal model. */
  lemma AbsentIdIsNoOp(id: int, isCompleted: bool, m: Model)
    requires forall i :: 0 <= i < |m.entries| ==> m.entries[i].id != id
    ensures ApplyCheck(id, isCompleted, m) == m
    ensures ApplyDelete(id, m) == m
  {
    RejectNothingMatches(m.entries, HasId(id));
  }

  /** Deleting the completed entries twice is the same as once. */
  lemma DeleteAllCompletedIdempotent(m: Model)
    ensures ApplyDeleteAllCompleted(ApplyDeleteAllCompleted(m)) == ApplyDeleteAllCompleted(m)
  {
    RejectIdempotent(m.entries, IsCompleted);
  }

  /** `Engine.run_with_history`: one model per message, each the message
      applied to the one before (the first to the input). */
  function RunWithHistory(m: Model, msgs: seq<Msg>): (h: seq<Model>)
    ensures |h| == |msgs|
    ensures |msgs| > 0 ==> h[0] == ApplyTo(msgs[0], m)
    ensures forall i {:trigger msgs[i]} :: 0 < i < |msgs| ==> h[i] == ApplyTo(msgs[i], h[i - 1])
  {
    Engine.History(ApplyTo, m, msgs)
  }

  /** `Engine.run`: `.last` of the history, which is nil (not the input
      model) for an empty message list. */
  function Run(m: Model, msgs: seq<Msg>): (r: Option<Model>)
    ensures r.None? <==> |msgs| == 0
    ensures r.Some? ==> r.value == Engine.Fold(ApplyTo, m, msgs)
  {
    var h := RunWithHistory(m, msgs);
    if |h| == 0 then None
    else
      Engine.HistoryLastIsFold(ApplyTo, m, msgs);
      Some(h[|h| - 1])
  }

  /** Starting from a valid model, every model in the history is valid and
      has a next id no smaller than the input's. */
  lemma HistoryIsValid(m: Model, msgs: seq<Msg>)
    requires Valid(m)
    ensures forall i :: 0 <= i < |msgs| ==> Valid(RunWithHistory(m, msgs)[i])
    ensures forall i :: 0 <= i < |msgs| ==> m.nextId <= RunWithHistory(m, msgs)[i].nextId
  {
    forall msg, x | Valid(x)
      ensures Valid(ApplyTo(msg, x))
    {
      ApplyToPreservesValid(msg, x);
    }
    Engine.HistoryPreserves(ApplyTo, Valid, m, msgs);
    var atLeast := (x: Model) => m.nextId <= x.nextId;
    Engine.HistoryPreserves(ApplyTo, atLeast, m, msgs);
  }
}
