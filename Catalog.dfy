/**
 * The product table as a sequence of rows in store order (the
 * `_context.Products` set), with key lookup and the one-row changes that
 * Add, Update and Delete make to it.
 */
module Catalog {
  import opened Wrappers
  import opened Models

  /** [Key] on Product.Id: no two rows share a key. */
  predicate UniqueKeys(rows: seq<Product>) {
    forall i, j :: 0 <= i < j < |rows| ==> rows[i].id != rows[j].id
  }

  /** Keys are unique exactly when looking up each row's key finds that very row. */
  lemma KeysLocateRows(rows: seq<Product>)
    ensures UniqueKeys(rows) <==> forall i :: 0 <= i < |rows| ==> IndexOfKey(rows, rows[i].id) == Some(i)
  {
    if !UniqueKeys(rows) {
      var i, j :| 0 <= i < j < |rows| && rows[i].id == rows[j].id;
      assert IndexOfKey(rows, rows[j].id).value <= i;
    }
  }

  predicate HasKey(rows: seq<Product>, id: int) {
    exists i :: 0 <= i < |rows| && rows[i].id == id
  }

  /** The position of the first row whose key is `id`. */
  function IndexOfKey(rows: seq<Product>, id: int): (r: Option<nat>)
    ensures r.None? <==> !HasKey(rows, id)
    ensures r.Some? ==> r.value < |rows| && rows[r.value].id == id
    ensures r.Some? ==> forall j :: 0 <= j < r.value ==> rows[j].id != id
  {
    if rows == [] then None
    else if rows[0].id == id then Some(0)
    else
      match IndexOfKey(rows[1..], id)
      case None => (assert forall j :: 1 <= j < |rows| ==> rows[j] == rows[1..][j - 1]; None)
      case Some(k) => Some(k + 1)
  }

  /** `Products.Find(id)`: the row with key `id`, or none. */
  function Find(rows: seq<Product>, id: int): (r: Option<Product>)
    ensures r.None? <==> !HasKey(rows, id)
    ensures r.Some? ==> r.value in rows && r.value.id == id
  {
    match IndexOfKey(rows, id)
    case None => None
    case Some(i) => Some(rows[i])
  }

  /** `Products.Remove(rows[i])`. */
  function RemoveAt(rows: seq<Product>, i: nat): (r: seq<Product>)
    requires i < |rows|
    ensures |r| == |rows| - 1
    ensures forall j :: 0 <= j < i ==> r[j] == rows[j]
    ensures forall j :: i <= j < |r| ==> r[j] == rows[j + 1]
  {
    rows[..i] + rows[i + 1..]
  }

  /** In a table with unique keys, Find(id) returns a row exactly when that row is stored under key `id`. */
  lemma FindIffStored(rows: seq<Product>, id: int, p: Product)
    requires UniqueKeys(rows)
    ensures Find(rows, id) == Some(p) <==> p in rows && p.id == id
  {
    if p in rows && p.id == id {
      var i :| 0 <= i < |rows| && rows[i] == p;
      assert IndexOfKey(rows, id) == Some(i);
    }
  }

  /** Appending a row under a fresh key keeps keys unique, makes that row findable and changes no other lookup. */
  lemma AppendRow(rows: seq<Product>, p: Product)
    requires UniqueKeys(rows) && !HasKey(rows, p.id)
    ensures UniqueKeys(rows + [p])
    ensures Find(rows + [p], p.id) == Some(p)
    ensures forall k :: k != p.id ==> Find(rows + [p], k) == Find(rows, k)
  {
    var after := rows + [p];
    assert forall j :: 0 <= j < |rows| ==> after[j] == rows[j];
    assert UniqueKeys(after);
    FindIffStored(after, p.id, p);
    forall k | k != p.id
      ensures Find(after, k) == Find(rows, k)
    {
      SameRowsForKey(rows, after, k);
    }
  }

  /** Overwriting a row with one under the same key keeps keys unique, makes the new row findable and changes no other lookup. */
  lemma ReplaceRow(rows: seq<Product>, i: nat, p: Product)
    requires UniqueKeys(rows) && i < |rows| && p.id == rows[i].id
    ensures UniqueKeys(rows[i := p])
    ensures Find(rows[i := p], p.id) == Some(p)
    ensures forall k :: k != p.id ==> Find(rows[i := p], k) == Find(rows, k)
  {
    var after := rows[i := p];
    assert UniqueKeys(after);
    assert after[i] == p;
    FindIffStored(after, p.id, p);
    forall k | k != p.id
      ensures Find(after, k) == Find(rows, k)
    {
      forall q ensures (q in after && q.id == k) <==> (q in rows && q.id == k) {
        if q in rows && q.id == k {
          var j :| 0 <= j < |rows| && rows[j] == q;
          assert after[j] == q;
        }
      }
      SameRowsForKey(rows, after, k);
    }
  }

  /** Removing the row at `i` keeps keys unique, leaves no row under its key and changes no other lookup. */
  lemma RemoveRow(rows: seq<Product>, i: nat)
    requires UniqueKeys(rows) && i < |rows|
    ensures UniqueKeys(RemoveAt(rows, i))
    ensures !HasKey(RemoveAt(rows, i), rows[i].id)
    ensures forall k :: k != rows[i].id ==> Find(RemoveAt(rows, i), k) == Find(rows, k)
  {
    var after := RemoveAt(rows, i);
    assert UniqueKeys(after) by {
      forall a, b | 0 <= a < b < |after| ensures after[a].id != after[b].id {
        var a' := if a < i then a else a + 1;
        var b' := if b < i then b else b + 1;
        assert after[a] == rows[a'] && after[b] == rows[b'];
      }
    }
    forall j | 0 <= j < |after| ensures after[j].id != rows[i].id {
      if j < i { assert after[j] == rows[j]; } else { assert after[j] == rows[j + 1]; }
    }
    forall k | k != rows[i].id
      ensures Find(after, k) == Find(rows, k)
    {
      forall q ensures (q in after && q.id == k) <==> (q in rows && q.id == k) {
        if q in rows && q.id == k {
          var j :| 0 <= j < |rows| && rows[j] == q;
          if j < i { assert after[j] == q; } else { assert j != i; assert after[j - 1] == q; }
        }
      }
      SameRowsForKey(rows, after, k);
    }
  }

  /** Two tables with unique keys that store the same rows under key `k` agree on Find(k). */
  lemma SameRowsForKey(rows: seq<Product>, other: seq<Product>, k: int)
    requires UniqueKeys(rows) && UniqueKeys(other)
    requires forall q :: (q in other && q.id == k) <==> (q in rows && q.id == k)
    ensures Find(other, k) == Find(rows, k)
  {
    match Find(rows, k)
    case None =>
      assert forall j :: 0 <= j < |other| ==> other[j] in other;
    case Some(p) =>
      FindIffStored(rows, k, p);
      FindIffStored(other, k, p);
  }
}
