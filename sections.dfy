/** Two-level addressing of an array of table sections by index path:
    get, set, insert and remove one item. Every change of the task list
    goes through these operations. The array is a value, so each
    mutating operation takes the old array and gives back the new one. */
module Sections {

  /** Position of one row: a section and an item inside it. */
  datatype IndexPath = IndexPath(section: nat, item: nat)

  /** A table section: its model and its rows. */
  datatype Section<M, T> = Section(model: M, items: seq<T>)

  /** The path names an existing item (get, set, remove). */
  predicate ValidPath<M, T>(ss: seq<Section<M, T>>, p: IndexPath) {
    p.section < |ss| && p.item < |ss[p.section].items|
  }

  /** The path names a place an item can be inserted (insert). */
  predicate ValidInsertPath<M, T>(ss: seq<Section<M, T>>, p: IndexPath) {
    p.section < |ss| && p.item <= |ss[p.section].items|
  }

  /** The subscript getter. */
  function Get<M, T>(ss: seq<Section<M, T>>, p: IndexPath): (x: T)
    requires ValidPath(ss, p)
    ensures x in ss[p.section].items && x == ss[p.section].items[p.item]
  {
    ss[p.section].items[p.item]
  }

  /** Section `s` rebuilt from its original model with new items; every
      other section is kept. */
  function Rebuilt<M, T>(ss: seq<Section<M, T>>, s: nat, items: seq<T>): (r: seq<Section<M, T>>)
    requires s < |ss|
    ensures |r| == |ss|
    ensures r[s].model == ss[s].model && r[s].items == items
    ensures forall k :: 0 <= k < |ss| && k != s ==> r[k] == ss[k]
  {
    ss[s := Section(ss[s].model, items)]
  }

  /** The array after the subscript setter has stored `x` at `p`. */
  function WithItem<M, T>(ss: seq<Section<M, T>>, p: IndexPath, x: T): (r: seq<Section<M, T>>)
    requires ValidPath(ss, p)
    ensures |r| == |ss|
    ensures forall k :: 0 <= k < |ss| ==> r[k].model == ss[k].model && |r[k].items| == |ss[k].items|
    ensures Get(r, p) == x
    ensures forall q :: ValidPath(ss, q) && q != p ==> ValidPath(r, q) && Get(r, q) == Get(ss, q)
  {
    Rebuilt(ss, p.section, ss[p.section].items[p.item := x])
  }

  /** The array after `x` is inserted at `p`: the items of section
      `p.section` from `p.item` on move one place right. */
  function WithInserted<M, T>(ss: seq<Section<M, T>>, p: IndexPath, x: T): (r: seq<Section<M, T>>)
    requires ValidInsertPath(ss, p)
    ensures |r| == |ss|
    ensures forall k :: 0 <= k < |ss| ==> r[k].model == ss[k].model
    ensures forall k :: 0 <= k < |ss| && k != p.section ==> r[k] == ss[k]
    ensures |r[p.section].items| == |ss[p.section].items| + 1
    ensures r[p.section].items[p.item] == x
    ensures forall i :: 0 <= i < p.item ==> r[p.section].items[i] == ss[p.section].items[i]
    ensures forall i :: p.item < i <= |ss[p.section].items| ==> r[p.section].items[i] == ss[p.section].items[i - 1]
  {
    var items := ss[p.section].items;
    Rebuilt(ss, p.section, items[..p.item] + [x] + items[p.item..])
  }

  /** The array after the item at `p` is removed: the items after it
      move one place left. */
  function WithRemoved<M, T>(ss: seq<Section<M, T>>, p: IndexPath): (r: seq<Section<M, T>>)
    requires ValidPath(ss, p)
    ensures |r| == |ss|
    ensures forall k :: 0 <= k < |ss| ==> r[k].model == ss[k].model
    ensures forall k :: 0 <= k < |ss| && k != p.section ==> r[k] == ss[k]
    ensures |r[p.section].items| == |ss[p.section].items| - 1
    ensures forall i :: 0 <= i < p.item ==> r[p.section].items[i] == ss[p.section].items[i]
    ensures forall i :: p.item <= i < |r[p.section].items| ==> r[p.section].items[i] == ss[p.section].items[i + 1]
  {
    var items := ss[p.section].items;
    Rebuilt(ss, p.section, items[..p.item] + items[p.item + 1..])
  }

  /** `subscript(indexPath:)` setter: copies the section's items out,
      assigns one, and writes the section back. */
  method SetItem<M, T>(ss: seq<Section<M, T>>, p: IndexPath, x: T) returns (r: seq<Section<M, T>>)
    requires ValidPath(ss, p)
    ensures r == WithItem(ss, p, x)
  {
    var items := ss[p.section].items;
    items := items[p.item := x];
    r := ss[p.section := Section(ss[p.section].model, items)];
  }

  /** `insert(_:at:)`. */
  method Insert<M, T>(ss: seq<Section<M, T>>, x: T, p: IndexPath) returns (r: seq<Section<M, T>>)
    requires ValidInsertPath(ss, p)
    ensures r == WithInserted(ss, p, x)
  {
    var items := ss[p.section].items;
    items := items[..p.item] + [x] + items[p.item..];
    r := ss[p.section := Section(ss[p.section].model, items)];
  }

  /** `remove(at:)`: gives back the removed item with the new array. */
  method Remove<M, T>(ss: seq<Section<M, T>>, p: IndexPath) returns (r: seq<Section<M, T>>, removed: T)
    requires ValidPath(ss, p)
    ensures removed == Get(ss, p)
    ensures r == WithRemoved(ss, p)
  {
    var items := ss[p.section].items;
    removed := items[p.item];
    items := items[..p.item] + items[p.item + 1..];
    r := ss[p.section := Section(ss[p.section].model, items)];
  }

  /** Removing an item and inserting it back at the same path gives the
      original array. */
  lemma RemoveThenInsertRestores<M, T>(ss: seq<Section<M, T>>, p: IndexPath)
    requires ValidPath(ss, p)
    ensures ValidInsertPath(WithRemoved(ss, p), p)
    ensures WithInserted(WithRemoved(ss, p), p, Get(ss, p)) == ss
  {
    var items := ss[p.section].items;
    var shorter := items[..p.item] + items[p.item + 1..];
    assert shorter[..p.item] + [items[p.item]] + shorter[p.item..] == items;
  }

  /** Inserting an item and removing it again gives the original array. */
  lemma InsertThenRemoveRestores<M, T>(ss: seq<Section<M, T>>, p: IndexPath, x: T)
    requires ValidInsertPath(ss, p)
    ensures ValidPath(WithInserted(ss, p, x), p)
    ensures Get(WithInserted(ss, p, x), p) == x
    ensures WithRemoved(WithInserted(ss, p, x), p) == ss
  {
    var items := ss[p.section].items;
    var longer := items[..p.item] + [x] + items[p.item..];
    assert longer[..p.item] + longer[p.item + 1..] == items;
  }

  /** Removing the item at `p` and inserting it at `q` of the same
      section keeps the section's items as a multiset. */
  lemma MoveKeepsItems<M, T>(ss: seq<Section<M, T>>, p: IndexPath, q: IndexPath)
    requires ValidPath(ss, p)
    requires q.section == p.section
    requires ValidInsertPath(WithRemoved(ss, p), q)
    ensures |WithInserted(WithRemoved(ss, p), q, Get(ss, p))| == |ss|
    ensures multiset(WithInserted(WithRemoved(ss, p), q, Get(ss, p))[p.section].items)
         == multiset(ss[p.section].items)
  {
    var items := ss[p.section].items;
    var shorter := items[..p.item] + items[p.item + 1..];
    assert items == items[..p.item] + [items[p.item]] + items[p.item + 1..];
    assert shorter == shorter[..q.item] + shorter[q.item..];
    assert multiset(items) == multiset(shorter) + multiset{items[p.item]};
  }
}
