/** The to-do item shared by both implementations, and the operations on an
    entry list that the model constructors and the check transitions use. */
module Entries {
  import opened Wrappers
  import opened Compaction

  /** One to-do item; `completed` defaults to false as in both constructors. */
  datatype Entry = Entry(id: int, description: string, completed: bool := false)

  /** The ids of `es`, in order (`entries.map { $0.id }`). */
  function Ids(es: seq<Entry>): (ids: seq<int>)
    ensures |ids| == |es|
    ensures forall i :: 0 <= i < |es| ==> ids[i] == es[i].id
  {
    seq(|es|, i requires 0 <= i < |es| => es[i].id)
  }

  /** The largest element, or None for an empty sequence (`max()`). */
  function Max(xs: seq<int>): (r: Option<int>)
    ensures r.None? <==> |xs| == 0
    ensures r.Some? ==> r.value in xs
    ensures r.Some? ==> forall i :: 0 <= i < |xs| ==> xs[i] <= r.value
  {
    if |xs| == 0 then None
    else
      match Max(xs[1..])
      case None => Some(xs[0])
      case Some(m) => Some(if xs[0] >= m then xs[0] else m)
  }

  /** The identifier both constructors pick when none is supplied: one more
      than the largest id, where an empty list counts as largest id -1. It is
      the least integer above every id. */
  function DefaultNextId(es: seq<Entry>): (n: int)
    ensures |es| == 0 ==> n == 0
    ensures forall i :: 0 <= i < |es| ==> es[i].id < n
    ensures |es| > 0 ==> exists i :: 0 <= i < |es| && es[i].id == n - 1
  {
    var ids := Ids(es);
    var n := Max(ids).GetOr(-1) + 1;
    assert |es| > 0 ==> Max(ids).value in ids;
    n
  }

  /** No two entries share an id. */
  predicate UniqueIds(es: seq<Entry>) {
    forall i, j :: 0 <= i < |es| && 0 <= j < |es| && i != j ==> es[i].id != es[j].id
  }

  /** Every id is below `bound`. */
  predicate IdsBelow(es: seq<Entry>, bound: int) {
    forall i :: 0 <= i < |es| ==> es[i].id < bound
  }

  /** Appending an entry whose id is the bound keeps ids unique, below the
      next bound. */
  lemma AppendFreshKeepsIds(es: seq<Entry>, e: Entry, bound: int)
    requires UniqueIds(es) && IdsBelow(es, bound) && e.id == bound
    ensures UniqueIds(es + [e]) && IdsBelow(es + [e], bound + 1)
  {
    var r := es + [e];
    assert forall i :: 0 <= i < |es| ==> r[i] == es[i];
  }

  /** The entry-selection predicates the delete transitions pass to a
      compaction: `{ $0.id == id }` and `{ $0.completed }`. */
  function HasId(id: int): Entry -> bool {
    (e: Entry) => e.id == id
  }

  function IsCompleted(e: Entry): bool {
    e.completed
  }

  function OtherId(id: int): Entry -> bool {
    (e: Entry) => e.id != id
  }

  /** Ruby's `Check#apply_to` loop: every entry with the given id is replaced
      by a copy with the new completed flag; the rest are pushed unchanged. */
  function CheckAll(es: seq<Entry>, id: int, isCompleted: bool): (r: seq<Entry>)
    ensures |r| == |es|
    ensures forall i :: 0 <= i < |es| ==> r[i].id == es[i].id && r[i].description == es[i].description
    ensures forall i :: 0 <= i < |es| && es[i].id == id ==> r[i].completed == isCompleted
    ensures forall i :: 0 <= i < |es| && es[i].id != id ==> r[i] == es[i]
  {
    if |es| == 0 then []
    else
      var e := es[0];
      var e' := if e.id == id then Entry(id, e.description, isCompleted) else e;
      [e'] + CheckAll(es[1..], id, isCompleted)
  }

  /** Swift's `.check` loop as written: the result starts empty and only the
      entries with the given id are appended (with the new flag); entries
      with any other id are not carried over. */
  function KeepChecked(es: seq<Entry>, id: int, isCompleted: bool): (r: seq<Entry>)
    ensures |r| <= |es|
    ensures forall k :: 0 <= k < |r| ==> r[k].id == id && r[k].completed == isCompleted
    ensures |r| == 0 <==> forall i :: 0 <= i < |es| ==> es[i].id != id
    ensures |r| == CountWhere(es, HasId(id))
  {
    if |es| == 0 then []
    else
      var e := es[0];
      var rest := KeepChecked(es[1..], id, isCompleted);
      if e.id == id then [Entry(e.id, e.description, isCompleted)] + rest else rest
  }

  /** Swift's check is Ruby's check applied to only the matching entries. */
  lemma {:induction false} KeepCheckedIsCheckOfMatching(es: seq<Entry>, id: int, isCompleted: bool)
    ensures KeepChecked(es, id, isCompleted) == CheckAll(Reject(es, OtherId(id)), id, isCompleted)
    decreases |es|
  {
    if |es| > 0 {
      KeepCheckedIsCheckOfMatching(es[1..], id, isCompleted);
      if es[0].id == id {
        var m := Reject(es, OtherId(id));
        assert m == [es[0]] + Reject(es[1..], OtherId(id));
        assert m[1..] == Reject(es[1..], OtherId(id));
      }
    }
  }

  /** Checking an id no entry has changes nothing. */
  lemma CheckAllAbsent(es: seq<Entry>, id: int, isCompleted: bool)
    requires forall i :: 0 <= i < |es| ==> es[i].id != id
    ensures CheckAll(es, id, isCompleted) == es
  {
  }

  /** A subsequence of an entry list with unique ids below `bound` keeps both
      properties. */
  lemma {:induction false} SubsequenceKeepsIds(r: seq<Entry>, es: seq<Entry>, bound: int)
    requires IsSubsequence(r, es)
    requires UniqueIds(es) && IdsBelow(es, bound)
    ensures UniqueIds(r) && IdsBelow(r, bound)
    ensures forall k :: 0 <= k < |r| ==> r[k].id in Ids(es)
    decreases |es|
  {
    if |es| > 0 {
      var tail := es[1..];
      assert UniqueIds(tail) && IdsBelow(tail, bound);
      if |r| > 0 && r[0] == es[0] && IsSubsequence(r[1..], tail) {
        SubsequenceKeepsIds(r[1..], tail, bound);
        forall k | 1 <= k < |r|
          ensures r[k].id != r[0].id
        {
          assert r[1..][k - 1].id in Ids(tail);
          var j :| 0 <= j < |tail| && Ids(tail)[j] == r[k].id;
          assert es[j + 1].id == r[k].id;
        }
        forall k | 0 <= k < |r|
          ensures r[k].id in Ids(es)
        {
          if k == 0 {
            assert Ids(es)[0] == r[0].id;
          } else {
            assert r[1..][k - 1].id in Ids(tail);
            var j :| 0 <= j < |tail| && Ids(tail)[j] == r[k].id;
            assert Ids(es)[j + 1] == r[k].id;
          }
        }
      } else {
        SubsequenceKeepsIds(r, tail, bound);
        forall k | 0 <= k < |r|
          ensures r[k].id in Ids(es)
        {
          var j :| 0 <= j < |tail| && Ids(tail)[j] == r[k].id;
          assert Ids(es)[j + 1] == r[k].id;
        }
      }
    }
  }

  /** Removing entries keeps ids unique and below the bound. */
  lemma RejectKeepsIds(es: seq<Entry>, p: Entry -> bool, bound: int)
    requires UniqueIds(es) && IdsBelow(es, bound)
    ensures UniqueIds(Reject(es, p)) && IdsBelow(Reject(es, p), bound)
  {
    RejectIsSubsequence(es, p);
    SubsequenceKeepsIds(Reject(es, p), es, bound);
  }

  /** Swift's check keeps ids unique and below the bound: with unique ids at
      most one entry survives. */
  lemma {:induction false} KeepCheckedKeepsIds(es: seq<Entry>, id: int, isCompleted: bool, bound: int)
    requires UniqueIds(es) && IdsBelow(es, bound)
    ensures UniqueIds(KeepChecked(es, id, isCompleted)) && IdsBelow(KeepChecked(es, id, isCompleted), bound)
    ensures |KeepChecked(es, id, isCompleted)| <= 1
    decreases |es|
  {
    if |es| > 0 {
      var tail := es[1..];
      assert UniqueIds(tail) && IdsBelow(tail, bound);
      KeepCheckedKeepsIds(tail, id, isCompleted, bound);
      if es[0].id == id {
        assert forall i :: 0 <= i < |tail| ==> tail[i].id != id by {
          forall i | 0 <= i < |tail|
            ensures tail[i].id != id
          {
            assert es[i + 1] == tail[i];
          }
        }
      }
    }
  }
}
