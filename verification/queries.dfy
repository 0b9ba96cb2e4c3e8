/**
 * The one database query shape the routes use: `findMany({ where, orderBy:
 * { field: "asc" } })` over a table, modelled on an immutable map. The order
 * is code-unit lexicographic order of the sort field; rows with equal sort
 * keys come out in an unspecified order, as in the database.
 */
module Queries {
  import opened Strings
  import opened Records

  /** The ids are listed in ascending order of their rows' sort keys. */
  ghost predicate SortedBy<T>(ks: seq<Id>, rows: map<Id, T>, key: T -> string)
    requires forall i :: 0 <= i < |ks| ==> ks[i] in rows
  {
    forall i, j :: 0 <= i < j < |ks| ==> LexLe(key(rows[ks[i]]), key(rows[ks[j]]))
  }

  /** No id is listed twice. */
  ghost predicate Distinct(ks: seq<Id>) {
    forall i, j :: 0 <= i < j < |ks| ==> ks[i] != ks[j]
  }

  /** Where a row with sort key `x` goes: after every key not above it. */
  function InsertionPoint<T>(ks: seq<Id>, rows: map<Id, T>, key: T -> string, x: string): (k: nat)
    requires forall i :: 0 <= i < |ks| ==> ks[i] in rows
    requires SortedBy(ks, rows, key)
    ensures k <= |ks|
    ensures forall i :: 0 <= i < k ==> LexLe(key(rows[ks[i]]), x)
    ensures forall i :: k <= i < |ks| ==> LexLe(x, key(rows[ks[i]]))
    decreases |ks|
  {
    if |ks| == 0 then 0
    else
      var last := key(rows[ks[|ks| - 1]]);
      if LexLe(last, x) then
        assert forall i :: 0 <= i < |ks| ==> LexLe(key(rows[ks[i]]), x) by {
          forall i | 0 <= i < |ks| - 1 {
            LexLeTransitive(key(rows[ks[i]]), last, x);
          }
        }
        |ks|
      else
        LexLeTotal(last, x);
        InsertionPoint(ks[..|ks| - 1], rows, key, x)
  }

  /** Inserting a new id at its insertion point keeps the list sorted and duplicate-free. */
  lemma InsertKeepsOrder<T>(ks: seq<Id>, rows: map<Id, T>, key: T -> string, id: Id, k: nat)
    requires forall i :: 0 <= i < |ks| ==> ks[i] in rows
    requires id in rows && id !in ks
    requires Distinct(ks) && SortedBy(ks, rows, key)
    requires k <= |ks|
    requires forall i :: 0 <= i < k ==> LexLe(key(rows[ks[i]]), key(rows[id]))
    requires forall i :: k <= i < |ks| ==> LexLe(key(rows[id]), key(rows[ks[i]]))
    ensures var ks' := ks[..k] + [id] + ks[k..];
      && |ks'| == |ks| + 1
      && (forall i :: 0 <= i < |ks'| ==> ks'[i] in rows)
      && (forall x :: x in ks' <==> x in ks || x == id)
      && Distinct(ks')
      && SortedBy(ks', rows, key)
  {
    var ks' := ks[..k] + [id] + ks[k..];
    assert forall i :: 0 <= i < |ks'| ==> ks'[i] == if i < k then ks[i] else if i == k then id else ks[i - 1];
    forall x | x in ks
      ensures x in ks'
    {
      var i :| 0 <= i < |ks| && ks[i] == x;
      if i < k {
        assert ks'[i] == x;
      } else {
        assert ks'[i + 1] == x;
      }
    }
    forall i, j | 0 <= i < j < |ks'|
      ensures ks'[i] != ks'[j] && LexLe(key(rows[ks'[i]]), key(rows[ks'[j]]))
    {
      if j < k {
        assert ks'[i] == ks[i] && ks'[j] == ks[j];
      } else if j == k {
        assert ks'[i] == ks[i] && ks'[j] == id;
      } else if i < k {
        assert ks'[i] == ks[i] && ks'[j] == ks[j - 1];
      } else if i == k {
        assert ks'[i] == id && ks'[j] == ks[j - 1];
      } else {
        assert ks'[i] == ks[i - 1] && ks'[j] == ks[j - 1];
      }
    }
  }


  /** The ids of the rows satisfying `keep`, each once, ascending by `key`. */
  method OrderedKeys<T>(rows: map<Id, T>, keep: T -> bool, key: T -> string) returns (ks: seq<Id>)
    ensures forall i :: 0 <= i < |ks| ==> ks[i] in rows && keep(rows[ks[i]])
    ensures forall id :: id in rows && keep(rows[id]) ==> id in ks
    ensures Distinct(ks)
    ensures SortedBy(ks, rows, key)
  {
    var pending := rows.Keys;
    ks := [];
    while pending != {}
      invariant pending <= rows.Keys
      invariant forall i :: 0 <= i < |ks| ==> ks[i] in rows && keep(rows[ks[i]]) && ks[i] !in pending
      invariant forall id :: id in rows && id !in pending && keep(rows[id]) ==> id in ks
      invariant Distinct(ks)
      invariant SortedBy(ks, rows, key)
      decreases pending
    {
      var id :| id in pending;
      pending := pending - {id};
      if keep(rows[id]) {
        var k := InsertionPoint(ks, rows, key, key(rows[id]));
        InsertKeepsOrder(ks, rows, key, id, k);
        ks := ks[..k] + [id] + ks[k..];
      }
    }
  }

  /** The rows behind a list of ids. */
  function RowsOf<T>(rows: map<Id, T>, ks: seq<Id>): (r: seq<T>)
    requires forall i :: 0 <= i < |ks| ==> ks[i] in rows
    ensures |r| == |ks|
    ensures forall i :: 0 <= i < |ks| ==> r[i] == rows[ks[i]]
  {
    seq(|ks|, i requires 0 <= i < |ks| => rows[ks[i]])
  }
}
