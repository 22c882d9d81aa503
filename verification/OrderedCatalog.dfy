/** Catalogs whose items carry an `order`: billing types (with the frequency, processor and
    priority variants) and currencies, which differ in how `create` numbers a new item. Properties
    refer to billing types from three columns; a catalog with one column uses only the first. */
module OrderedCatalog {
  import opened Basics

  datatype Item = Item(id: Id, name: string, order: int)

  datatype Column = Expedia | Booking | Agoda

  /** The references of one property. */
  datatype Refs = Refs(expedia: Option<Id>, booking: Option<Id>, agoda: Option<Id>) {
    function Get(c: Column): Option<Id> {
      match c
      case Expedia => expedia
      case Booking => booking
      case Agoda => agoda
    }

    function Set(c: Column, r: Option<Id>): Refs {
      match c
      case Expedia => this.(expedia := r)
      case Booking => this.(booking := r)
      case Agoda => this.(agoda := r)
    }
  }

  predicate HasId(items: seq<Item>, id: Id) {
    exists i :: 0 <= i < |items| && items[i].id == id
  }

  predicate HasName(items: seq<Item>, name: string) {
    exists i :: 0 <= i < |items| && items[i].name == name
  }

  function Find(items: seq<Item>, id: Id): (r: Option<Item>)
    ensures r.Some? <==> HasId(items, id)
    ensures r.Some? ==> r.value in items && r.value.id == id
  {
    if items == [] then None
    else if items[0].id == id then Some(items[0])
    else Find(items[1..], id)
  }

  predicate UniqueIds(items: seq<Item>) {
    forall i, j :: 0 <= i < j < |items| ==> items[i].id != items[j].id
  }

  predicate UniqueNames(items: seq<Item>) {
    forall i, j :: 0 <= i < j < |items| ==> items[i].name != items[j].name
  }

  predicate UniqueOrders(items: seq<Item>) {
    forall i, j :: 0 <= i < j < |items| ==> items[i].order != items[j].order
  }

  // ---------------------------------------------------------------- reorder

  /** The order an item gets when the item at `current` moves to `target`. */
  function Shifted(order: int, current: int, target: int): int {
    if order == current then target
    else if current < order <= target then order - 1
    else if target <= order < current then order + 1
    else order
  }

  function Reordered(items: seq<Item>, current: int, target: int): (r: seq<Item>)
    ensures |r| == |items|
    ensures forall i :: 0 <= i < |items| ==> r[i] == items[i].(order := Shifted(items[i].order, current, target))
  {
    seq(|items|, i requires 0 <= i < |items| => items[i].(order := Shifted(items[i].order, current, target)))
  }

  /** Distinct orders stay distinct, the moved item gets the target, and any two other items keep
      their relative order. */
  lemma ReorderedKeepsOrder(items: seq<Item>, k: nat, target: int)
    requires UniqueOrders(items) && k < |items|
    ensures
      var r := Reordered(items, items[k].order, target);
      && UniqueOrders(r)
      && r[k].order == target
      && (forall i, j :: 0 <= i < |items| && 0 <= j < |items| && i != k && j != k ==>
            (items[i].order < items[j].order <==> r[i].order < r[j].order))
      && (forall i :: 0 <= i < |items| && i != k ==>
            (items[i].order < target < items[k].order || items[k].order < target < items[i].order ==> r[i] == items[i]))
  {
    assert forall i :: 0 <= i < |items| && i != k ==> items[i].order != items[k].order;
  }

  /** Moving an item back restores every order. */
  lemma ReorderBack(items: seq<Item>, k: nat, target: int)
    requires UniqueOrders(items) && k < |items|
    ensures Reordered(Reordered(items, items[k].order, target), target, items[k].order) == items
  {
    var back := Reordered(Reordered(items, items[k].order, target), target, items[k].order);
    forall i | 0 <= i < |items|
      ensures back[i] == items[i]
    {
      assert i != k ==> items[i].order != items[k].order;
    }
  }

  /** Item ids from order 1 upwards, when the orders are 1..n. */
  predicate Ranking(items: seq<Item>, ranking: seq<nat>) {
    && |ranking| == |items|
    && (forall p :: 0 <= p < |ranking| ==> ranking[p] < |items| && items[ranking[p]].order == p + 1)
  }

  function RemoveInsert(ranking: seq<nat>, from: nat, to: nat): (r: seq<nat>)
    requires from < |ranking| && to < |ranking|
    ensures |r| == |ranking|
  {
    var rest := ranking[..from] + ranking[from + 1..];
    rest[..to] + [ranking[from]] + rest[to..]
  }

  /** On orders 1..n, reordering is taking the item out of the sorted list and putting it back at
      the target position. */
  lemma ReorderIsRemoveInsert(items: seq<Item>, ranking: seq<nat>, current: int, target: int)
    requires Ranking(items, ranking)
    requires 1 <= current <= |items| && 1 <= target <= |items|
    ensures Ranking(Reordered(items, current, target), RemoveInsert(ranking, current - 1, target - 1))
  {
    var from, to := current - 1, target - 1;
    var rest := ranking[..from] + ranking[from + 1..];
    var r := RemoveInsert(ranking, from, to);
    forall p | 0 <= p < |r|
      ensures r[p] == ranking[if p == to then from
                              else if from <= p < to then p + 1
                              else if to < p <= from then p - 1
                              else p]
    {
      if p < to {
        assert r[p] == rest[p];
      } else if p > to {
        assert r[p] == rest[p - 1];
      }
    }
  }

  // ---------------------------------------------------------------- create

  function MaxOrder(items: seq<Item>): Option<int> {
    if items == [] then None
    else
      match MaxOrder(items[1..])
      case None => Some(items[0].order)
      case Some(m) => Some(if items[0].order > m then items[0].order else m)
  }

  lemma {:induction false} MaxOrderBounds(items: seq<Item>)
    ensures MaxOrder(items) == None <==> items == []
    ensures MaxOrder(items).Some? ==> forall i :: 0 <= i < |items| ==> items[i].order <= MaxOrder(items).value
  {
    if items != [] {
      MaxOrderBounds(items[1..]);
      assert forall i :: 0 < i < |items| ==> items[i] == items[1..][i - 1];
    }
  }

  /** Billing types number a new item one past the largest order; currencies one past the count. */
  datatype Numbering = PastMax | PastCount

  function NextOrder(items: seq<Item>, numbering: Numbering): int {
    match numbering
    case PastMax => (if items == [] then 0 else MaxOrder(items).value) + 1
    case PastCount => |items| + 1
  }

  /** One past the largest order is always free; one past the count is free exactly when nobody has it. */
  lemma CreateKeepsOrders(items: seq<Item>, numbering: Numbering, id: Id, name: string)
    requires UniqueOrders(items)
    ensures
      var order := NextOrder(items, numbering);
      UniqueOrders(items + [Item(id, name, order)])
      <==> numbering == PastMax || forall i :: 0 <= i < |items| ==> items[i].order != |items| + 1
  {
    MaxOrderBounds(items);
    var r := items + [Item(id, name, NextOrder(items, numbering))];
    assert r[|items|].order == NextOrder(items, numbering);
    assert forall i :: 0 <= i < |items| ==> r[i] == items[i];
    if UniqueOrders(r) {
      forall i | 0 <= i < |items|
        ensures items[i].order != NextOrder(items, numbering)
      {
        assert r[i].order != r[|items|].order;
      }
    }
  }

  // ---------------------------------------------------------------- references

  /** updateMany on one column: references to `from` become references to `to`. */
  function Redirected(refs: seq<Refs>, c: Column, from: Id, to: Id): (r: seq<Refs>)
    ensures |r| == |refs|
  {
    seq(|refs|, i requires 0 <= i < |refs| =>
      if refs[i].Get(c) == Some(from) then refs[i].Set(c, Some(to)) else refs[i])
  }

  function AllRedirected(refs: seq<Refs>, from: Id, to: Id): seq<Refs> {
    Redirected(Redirected(Redirected(refs, Expedia, from, to), Booking, from, to), Agoda, from, to)
  }

  function CountRefs(refs: seq<Refs>, c: Column, id: Id): nat {
    if refs == [] then 0 else CountRefs(refs[1..], c, id) + if refs[0].Get(c) == Some(id) then 1 else 0
  }

  /** The count shown with an item: its references over all columns. */
  function ItemCount(refs: seq<Refs>, id: Id): nat {
    CountRefs(refs, Expedia, id) + CountRefs(refs, Booking, id) + CountRefs(refs, Agoda, id)
  }

  /** The references of all properties in one column. */
  function InColumn(refs: seq<Refs>, c: Column): seq<Option<Id>> {
    seq(|refs|, i requires 0 <= i < |refs| => refs[i].Get(c))
  }

  /** A count is the number of times the item stands in the column. */
  lemma {:induction false} CountRefsExactly(refs: seq<Refs>, c: Column, id: Id)
    ensures CountRefs(refs, c, id) == multiset(InColumn(refs, c))[Some(id)]
  {
    if refs != [] {
      CountRefsExactly(refs[1..], c, id);
      assert InColumn(refs, c) == [refs[0].Get(c)] + InColumn(refs[1..], c);
    }
  }

  lemma {:induction false} RedirectedCounts(refs: seq<Refs>, d: Column, from: Id, to: Id, c: Column, id: Id)
    requires from != to
    ensures CountRefs(Redirected(refs, d, from, to), c, id) ==
            if c != d then CountRefs(refs, c, id)
            else if id == from then 0
            else if id == to then CountRefs(refs, c, to) + CountRefs(refs, c, from)
            else CountRefs(refs, c, id)
  {
    if refs != [] {
      assert Redirected(refs, d, from, to)[1..] == Redirected(refs[1..], d, from, to);
      RedirectedCounts(refs[1..], d, from, to, c, id);
    }
  }

  /** Redirecting all three columns leaves no reference to the old item, adds the old item's count to
      the new one column by column, and changes no other count and no other reference. */
  lemma RedirectionConserves(refs: seq<Refs>, from: Id, to: Id, c: Column, id: Id)
    requires from != to
    ensures
      var r := AllRedirected(refs, from, to);
      && |r| == |refs|
      && (forall i :: 0 <= i < |refs| ==>
            r[i].Get(c) == if refs[i].Get(c) == Some(from) then Some(to) else refs[i].Get(c))
      && CountRefs(r, c, from) == 0
      && CountRefs(r, c, to) == CountRefs(refs, c, to) + CountRefs(refs, c, from)
      && (id != from && id != to ==> CountRefs(r, c, id) == CountRefs(refs, c, id))
  {
    var r1 := Redirected(refs, Expedia, from, to);
    var r2 := Redirected(r1, Booking, from, to);
    forall x: Id
      ensures CountRefs(Redirected(r2, Agoda, from, to), c, x) ==
              if x == from then 0
              else if x == to then CountRefs(refs, c, to) + CountRefs(refs, c, from)
              else CountRefs(refs, c, x)
    {
      RedirectedCounts(refs, Expedia, from, to, c, x);
      RedirectedCounts(r1, Booking, from, to, c, x);
      RedirectedCounts(r2, Agoda, from, to, c, x);
      RedirectedCounts(refs, Expedia, from, to, c, to);
      RedirectedCounts(refs, Expedia, from, to, c, from);
      RedirectedCounts(r1, Booking, from, to, c, to);
      RedirectedCounts(r1, Booking, from, to, c, from);
    }
  }

  /** The count shown with the replacement grows by the count shown with the removed item. */
  lemma RemovalMovesCount(refs: seq<Refs>, from: Id, to: Id)
    requires from != to
    ensures ItemCount(AllRedirected(refs, from, to), to) == ItemCount(refs, to) + ItemCount(refs, from)
    ensures ItemCount(AllRedirected(refs, from, to), from) == 0
  {
    RedirectionConserves(refs, from, to, Expedia, to);
    RedirectionConserves(refs, from, to, Booking, to);
    RedirectionConserves(refs, from, to, Agoda, to);
  }

  // ---------------------------------------------------------------- the service

  datatype Catalog = Catalog(items: seq<Item>, refs: seq<Refs>)

  datatype Reply = Done | Unchanged | Conflict | NotFound | BadRequest

  function Create(s: Catalog, numbering: Numbering, id: Id, name: string): (Catalog, Reply) {
    if HasName(s.items, name) then (s, Conflict)
    else (s.(items := s.items + [Item(id, name, NextOrder(s.items, numbering))]), Done)
  }

  function Reorder(s: Catalog, id: Id, newOrder: int): (Catalog, Reply) {
    match Find(s.items, id)
    case None => (s, NotFound)
    case Some(item) =>
      if item.order == newOrder then (s, Unchanged)
      else (s.(items := ReorderedById(s.items, id, item.order, newOrder)), Done)
  }

  /** What `reorder` computes: the item is recognised by its id, the others by their order. */
  function NewOrder(i: Item, id: Id, current: int, target: int): int {
    if i.id == id then target
    else if target > current then (if current < i.order <= target then i.order - 1 else i.order)
    else (if target <= i.order < current then i.order + 1 else i.order)
  }

  function ReorderedById(items: seq<Item>, id: Id, current: int, target: int): (r: seq<Item>)
    ensures |r| == |items|
    ensures forall i :: 0 <= i < |items| ==> r[i] == items[i].(order := NewOrder(items[i], id, current, target))
  {
    seq(|items|, i requires 0 <= i < |items| => items[i].(order := NewOrder(items[i], id, current, target)))
  }

  /** With distinct orders, recognising the item by its id or by its order is the same. */
  lemma ReorderByIdIsShift(items: seq<Item>, k: nat, target: int)
    requires UniqueIds(items) && UniqueOrders(items) && k < |items|
    ensures ReorderedById(items, items[k].id, items[k].order, target) == Reordered(items, items[k].order, target)
  {
    var a, b := ReorderedById(items, items[k].id, items[k].order, target), Reordered(items, items[k].order, target);
    forall i | 0 <= i < |items|
      ensures a[i] == b[i]
    {
      assert i != k ==> items[i].order != items[k].order && items[i].id != items[k].id;
    }
  }

  function Without(items: seq<Item>, id: Id): seq<Item> {
    if items == [] then []
    else (if items[0].id == id then [] else [items[0]]) + Without(items[1..], id)
  }

  function Remove(s: Catalog, userFound: bool, passwordValid: bool, id: Id, replacementId: Id): (Catalog, Reply) {
    if !userFound then (s, NotFound)
    else if !passwordValid then (s, BadRequest)
    else if id == replacementId then (s, BadRequest)
    else if !HasId(s.items, id) || !HasId(s.items, replacementId) then (s, NotFound)
    else (Catalog(Without(s.items, id), AllRedirected(s.refs, id, replacementId)), Done)
  }

  /** What a reordering does: the references stay, every item keeps its id and name, the item ends with
      the new order, and the others keep their relative order, moving by at most one place and only
      between the old and the new position. It answers Unchanged exactly when the order was already
      the new one, and nothing else leaves the table as it was. */
  lemma ReorderMeans(s: Catalog, id: Id, newOrder: int)
    requires UniqueIds(s.items) && UniqueOrders(s.items)
    ensures
      var (r, reply) := Reorder(s, id, newOrder);
      && (reply == NotFound <==> forall i :: 0 <= i < |s.items| ==> s.items[i].id != id)
      && (reply == Unchanged <==> exists i :: 0 <= i < |s.items| && s.items[i].id == id && s.items[i].order == newOrder)
      && (reply == Done || ((reply == NotFound || reply == Unchanged) && r == s))
      && r.refs == s.refs && |r.items| == |s.items|
      && (forall i :: 0 <= i < |s.items| ==> r.items[i].id == s.items[i].id && r.items[i].name == s.items[i].name)
      && forall k :: 0 <= k < |s.items| && s.items[k].id == id ==> MovedTo(s.items, r.items, k, newOrder)
  {
    var found := Find(s.items, id);
    if found.Some? && found.value.order != newOrder {
      hide MovedTo, UniqueOrders;
      var k :| 0 <= k < |s.items| && s.items[k] == found.value;
      ShiftMoves(s.items, k, newOrder);
      forall i | 0 <= i < |s.items| && s.items[i].id == id
        ensures i == k
      {
      }
    } else if found.Some? {
      forall k | 0 <= k < |s.items| && s.items[k].id == id
        ensures MovedTo(s.items, s.items, k, newOrder)
      {
        FindOnly(s.items, k);
      }
    }
  }

  lemma ShiftMoves(items: seq<Item>, k: nat, target: int)
    requires UniqueIds(items) && UniqueOrders(items) && k < |items|
    ensures MovedTo(items, ReorderedById(items, items[k].id, items[k].order, target), k, target)
  {
    ReorderByIdIsShift(items, k, target);
    ReorderedKeepsOrder(items, k, target);
  }

  /** The orders after a reordering also of a table in which orders repeat, as currencies can have them: items
      that share the moved item's old order stay, and those at the target make room. */
  lemma ReorderWithRepeats(s: Catalog, id: Id, newOrder: int, i: nat)
    requires UniqueIds(s.items) && i < |s.items| && HasId(s.items, id)
    ensures
      var (from, before) := (Find(s.items, id).value.order, s.items[i].order);
      var after := Reorder(s, id, newOrder).0.items[i].order;
      && (s.items[i].id == id ==> after == newOrder)
      && (s.items[i].id != id && before == from ==> after == before)
      && (s.items[i].id != id && before == newOrder && from < newOrder ==> after == before - 1)
      && (s.items[i].id != id && before == newOrder && newOrder < from ==> after == before + 1)
  {
    var found := Find(s.items, id).value;
    var k :| 0 <= k < |s.items| && s.items[k] == found;
    assert s.items[i].id == id ==> i == k;
  }

  /** Item `k` stands at `target`, and all others stand as they did relative to each other. */
  predicate MovedTo(before: seq<Item>, after: seq<Item>, k: nat, target: int)
    requires k < |before| == |after|
  {
    && UniqueOrders(after) && after[k].order == target
    && (forall i, j :: 0 <= i < |before| && 0 <= j < |before| && i != k && j != k ==>
          (before[i].order < before[j].order <==> after[i].order < after[j].order))
    && (forall i :: 0 <= i < |before| && i != k ==> -1 <= after[i].order - before[i].order <= 1)
    && (forall i :: 0 <= i < |before| && i != k
                    && ((before[i].order < before[k].order && before[i].order < target)
                        || (before[i].order > before[k].order && before[i].order > target)) ==>
          after[i] == before[i])
  }

  /** On orders 1..n a reordering takes the item out of the sorted list and inserts it at the target. */
  lemma ReorderInserts(s: Catalog, id: Id, newOrder: int, ranking: seq<nat>)
    requires UniqueIds(s.items) && UniqueOrders(s.items) && Ranking(s.items, ranking) && HasId(s.items, id)
    requires 1 <= Find(s.items, id).value.order <= |ranking| == |s.items| && 1 <= newOrder <= |s.items|
    ensures
      var from := Find(s.items, id).value.order;
      Ranking(Reorder(s, id, newOrder).0.items, RemoveInsert(ranking, from - 1, newOrder - 1))
  {
    hide Ranking, RemoveInsert, ReorderedById, Reordered, UniqueIds, UniqueOrders, HasId;
    var item := Find(s.items, id).value;
    var k :| 0 <= k < |s.items| && s.items[k] == item;
    if item.order == newOrder {
      InsertBack(s.items, ranking, item.order - 1);
    } else {
      ReorderByIdIsShift(s.items, k, newOrder);
      ReorderIsRemoveInsert(s.items, ranking, item.order, newOrder);
    }
  }

  lemma InsertBack(items: seq<Item>, ranking: seq<nat>, p: nat)
    requires Ranking(items, ranking) && p < |ranking|
    ensures RemoveInsert(ranking, p, p) == ranking
  {
  }

  /** Reordering an item back to where it was restores the whole catalog. */
  lemma ReorderUndone(s: Catalog, id: Id, newOrder: int)
    requires UniqueIds(s.items) && UniqueOrders(s.items) && HasId(s.items, id)
    ensures Reorder(Reorder(s, id, newOrder).0, id, Find(s.items, id).value.order).0 == s
  {
    hide HasId, UniqueIds, UniqueOrders, ReorderedById;
    var item := Find(s.items, id).value;
    var k :| 0 <= k < |s.items| && s.items[k] == item;
    if item.order != newOrder {
      ShiftUndone(s.items, k, newOrder);
    }
  }

  lemma ShiftUndone(items: seq<Item>, k: nat, target: int)
    requires UniqueIds(items) && UniqueOrders(items) && k < |items|
    ensures
      var r := ReorderedById(items, items[k].id, items[k].order, target);
      && Find(r, items[k].id) == Some(items[k].(order := target))
      && ReorderedById(r, items[k].id, target, items[k].order) == items
  {
    hide UniqueOrders, ReorderedById, Reordered;
    var r := ReorderedById(items, items[k].id, items[k].order, target);
    ReorderByIdIsShift(items, k, target);
    ReorderedKeepsOrder(items, k, target);
    ReorderBack(items, k, target);
    FindOnly(r, k);
    ReorderByIdIsShift(r, k, items[k].order);
  }

  lemma FindOnly(items: seq<Item>, k: nat)
    requires UniqueIds(items) && k < |items|
    ensures Find(items, items[k].id) == Some(items[k])
  {
    var found := Find(items, items[k].id).value;
    var j :| 0 <= j < |items| && items[j] == found;
    assert items[j].id == items[k].id;
  }

  /** A reference after the removal of `from` in favour of `to`. */
  function Moved(r: Option<Id>, from: Id, to: Id): Option<Id> {
    if r == Some(from) then Some(to) else r
  }

  /** What a removal does: every refusal in the order of the checks leaves the catalog alone; otherwise
      exactly the one item is gone, and in each column every reference to it, and no other, names
      the replacement. */
  lemma RemoveMeans(s: Catalog, userFound: bool, passwordValid: bool, id: Id, replacementId: Id)
    requires UniqueIds(s.items)
    ensures
      var (r, reply) := Remove(s, userFound, passwordValid, id, replacementId);
      var exist := HasId(s.items, id) && HasId(s.items, replacementId);
      && (reply == BadRequest <==> userFound && (!passwordValid || id == replacementId))
      && (reply == NotFound <==> !userFound || (passwordValid && id != replacementId && !exist))
      && (reply == Done || ((reply == BadRequest || reply == NotFound) && r == s))
      && (reply == Done ==>
            && |r.items| == |s.items| - 1 && (forall x :: x in r.items <==> x in s.items && x.id != id)
            && (forall i, j :: 0 <= i < j < |r.items| ==> Before(s.items, r.items[i], r.items[j]))
            && |r.refs| == |s.refs|
            && (forall i :: 0 <= i < |s.refs| ==>
                  r.refs[i] == Refs(Moved(s.refs[i].expedia, id, replacementId),
                                    Moved(s.refs[i].booking, id, replacementId),
                                    Moved(s.refs[i].agoda, id, replacementId)))
            && ItemCount(r.refs, replacementId) == ItemCount(s.refs, replacementId) + ItemCount(s.refs, id)
            && ItemCount(r.refs, id) == 0)
  {
    hide Before, HasId, UniqueIds, Redirected, AllRedirected, ItemCount;
    var (r, reply) := Remove(s, userFound, passwordValid, id, replacementId);
    if reply == Done {
      WithoutItems(s.items, id);
      WithoutSize(s.items, id);
      RemovalMovesCount(s.refs, id, replacementId);
      RedirectionConserves(s.refs, id, replacementId, Expedia, id);
      RedirectionConserves(s.refs, id, replacementId, Booking, id);
      RedirectionConserves(s.refs, id, replacementId, Agoda, id);
      forall i | 0 <= i < |s.refs|
        ensures r.refs[i] == Refs(Moved(s.refs[i].expedia, id, replacementId),
                                  Moved(s.refs[i].booking, id, replacementId),
                                  Moved(s.refs[i].agoda, id, replacementId))
      {
        assert r.refs[i] == Refs(r.refs[i].Get(Expedia), r.refs[i].Get(Booking), r.refs[i].Get(Agoda));
      }
      forall i, j | 0 <= i < j < |r.items|
        ensures Before(s.items, r.items[i], r.items[j])
      {
        WithoutPair(s.items, id, i, j);
      }
    }
  }

  /** What a creation does: a taken name is refused; otherwise one item is appended, numbered either past
      every other item with nothing skipped after the last one, or past their count. */
  lemma CreateMeans(s: Catalog, numbering: Numbering, id: Id, name: string)
    ensures
      var (r, reply) := Create(s, numbering, id, name);
      && (reply == Conflict <==> exists i :: 0 <= i < |s.items| && s.items[i].name == name)
      && (reply == Conflict ==> r == s) && (reply == Conflict || reply == Done)
      && (reply == Done ==>
            && r.refs == s.refs && |r.items| == |s.items| + 1 && r.items[..|s.items|] == s.items
            && var added := r.items[|s.items|];
            && added.id == id && added.name == name
            && (numbering == PastCount || s.items == [] ==> added.order == |s.items| + 1)
            && (numbering == PastMax && s.items != [] ==>
                  && (forall i :: 0 <= i < |s.items| ==> s.items[i].order < added.order)
                  && exists i :: 0 <= i < |s.items| && s.items[i].order + 1 == added.order))
  {
    MaxOrderBounds(s.items);
    if s.items != [] {
      MaxOrderAttained(s.items);
    }
  }

  class CatalogService {
    const numbering: Numbering
    var items: seq<Item>
    var refs: seq<Refs>

    constructor (numbering: Numbering, items: seq<Item>, refs: seq<Refs>)
      ensures this.numbering == numbering && State() == Catalog(items, refs)
    {
      this.numbering, this.items, this.refs := numbering, items, refs;
    }

    function State(): Catalog
      reads this
    {
      Catalog(items, refs)
    }

    method CreateItem(id: Id, name: string) returns (reply: Reply)
      modifies this`items
      ensures (State(), reply) == Create(old(State()), numbering, id, name)
    {
      if HasName(items, name) {
        return Conflict;
      }
      var order;
      match numbering {
        case PastMax =>
          var last := MaxOrder(items);
          MaxOrderBounds(items);
          order := (if last.Some? then last.value else 0) + 1;
        case PastCount =>
          order := |items| + 1;
      }
      items := items + [Item(id, name, order)];
      reply := Done;
    }

    method ReorderItem(id: Id, newOrder: int) returns (reply: Reply)
      requires UniqueIds(items)
      modifies this`items
      ensures (State(), reply) == Reorder(old(State()), id, newOrder)
    {
      var item := Find(items, id);
      if item == None {
        return NotFound;
      }
      var currentOrder := item.value.order;
      if currentOrder == newOrder {
        return Unchanged;
      }
      var updates := PlanUpdates(id, currentOrder, newOrder);
      ApplyUpdates(id, currentOrder, newOrder, updates);
      reply := Done;
    }

    /** The scan of `reorder`: one update for each item whose order changes. */
    method PlanUpdates(id: Id, currentOrder: int, newOrder: int) returns (updates: map<Id, int>)
      requires UniqueIds(items) && currentOrder != newOrder
      ensures forall i :: 0 <= i < |items| ==>
                NewOrder(items[i], id, currentOrder, newOrder)
                == if items[i].id in updates then updates[items[i].id] else items[i].order
    {
      updates := map[];
      for n := 0 to |items|
        invariant forall x :: x in updates ==> exists j :: 0 <= j < n && items[j].id == x
        invariant forall i :: 0 <= i < n ==>
                    NewOrder(items[i], id, currentOrder, newOrder)
                    == if items[i].id in updates then updates[items[i].id] else items[i].order
      {
        var i := items[n];
        assert i.id !in updates;
        if newOrder > currentOrder {
          if i.id == id {
            updates := updates[i.id := newOrder];
          } else if i.order > currentOrder && i.order <= newOrder {
            updates := updates[i.id := i.order - 1];
          }
        } else {
          if i.id == id {
            updates := updates[i.id := newOrder];
          } else if i.order >= newOrder && i.order < currentOrder {
            updates := updates[i.id := i.order + 1];
          }
        }
      }
    }

    /** updateMany: all updates in one transaction. */
    method ApplyUpdates(ghost id: Id, ghost currentOrder: int, ghost newOrder: int, updates: map<Id, int>)
      requires forall i :: 0 <= i < |items| ==>
                 NewOrder(items[i], id, currentOrder, newOrder)
                 == if items[i].id in updates then updates[items[i].id] else items[i].order
      modifies this`items
      ensures items == ReorderedById(old(items), id, currentOrder, newOrder)
    {
      ghost var before := items;
      var n := 0;
      while n < |items|
        invariant 0 <= n <= |items| == |before|
        invariant items[n..] == before[n..]
        invariant forall i :: 0 <= i < n ==>
            items[i] == before[i].(order := NewOrder(before[i], id, currentOrder, newOrder))
      {
        assert items[n] == items[n..][0] == before[n];
        if items[n].id in updates {
          items := items[n := items[n].(order := updates[items[n].id])];
        }
        n := n + 1;
      }
    }

    method RemoveItem(userFound: bool, passwordValid: bool, id: Id, replacementId: Id) returns (reply: Reply)
      modifies this
      ensures (State(), reply) == Remove(old(State()), userFound, passwordValid, id, replacementId)
    {
      if !userFound {
        return NotFound;
      }
      if !passwordValid {
        return BadRequest;
      }
      if id == replacementId {
        return BadRequest;
      }
      if Find(items, id) == None {
        return NotFound;
      }
      if Find(items, replacementId) == None {
        return NotFound;
      }
      Redirect(Expedia, id, replacementId);
      Redirect(Booking, id, replacementId);
      Redirect(Agoda, id, replacementId);
      items := Without(items, id);
      reply := Done;
    }

    method Redirect(c: Column, from: Id, to: Id)
      modifies this`refs
      ensures refs == Redirected(old(refs), c, from, to)
    {
      ghost var before := refs;
      var n := 0;
      while n < |refs|
        invariant 0 <= n <= |refs| == |before|
        invariant refs[n..] == before[n..]
        invariant forall i :: 0 <= i < n ==> refs[i] == Redirected(before, c, from, to)[i]
      {
        assert refs[n] == refs[n..][0] == before[n];
        if refs[n].Get(c) == Some(from) {
          refs := refs[n := refs[n].Set(c, Some(to))];
        }
        n := n + 1;
      }
    }
  }

  // ---------------------------------------------------------------- whole runs

  datatype Op =
    | CreateOp(id: Id, name: string)
    | ReorderOp(id: Id, newOrder: int)
    | RemoveOp(id: Id, replacementId: Id)

  /** A created id is new, as the database generates it. */
  function Apply(s: Catalog, numbering: Numbering, op: Op): Catalog {
    match op
    case CreateOp(id, name) => if HasId(s.items, id) then s else Create(s, numbering, id, name).0
    case ReorderOp(id, newOrder) => Reorder(s, id, newOrder).0
    case RemoveOp(id, replacementId) => Remove(s, true, true, id, replacementId).0
  }

  function ApplyAll(s: Catalog, numbering: Numbering, ops: seq<Op>): Catalog {
    if ops == [] then s else Apply(ApplyAll(s, numbering, ops[..|ops| - 1]), numbering, ops[|ops| - 1])
  }

  predicate References(s: Catalog) {
    forall i, c: Column :: 0 <= i < |s.refs| && s.refs[i].Get(c).Some? ==> HasId(s.items, s.refs[i].Get(c).value)
  }

  predicate Sound(s: Catalog) {
    UniqueIds(s.items) && UniqueNames(s.items) && UniqueOrders(s.items) && References(s)
  }

  lemma {:induction false} WithoutItems(items: seq<Item>, id: Id)
    ensures forall x :: x in Without(items, id) <==> x in items && x.id != id
    ensures |Without(items, id)| <= |items|
  {
    if items != [] {
      WithoutItems(items[1..], id);
      assert items == [items[0]] + items[1..];
    }
  }

  /** Item `a` stands before item `b`. */
  predicate Before(items: seq<Item>, a: Item, b: Item) {
    exists i, j :: 0 <= i < j < |items| && items[i] == a && items[j] == b
  }

  lemma BeforeInTail(items: seq<Item>, a: Item, b: Item)
    requires items != []
    ensures Before(items[1..], a, b) ==> Before(items, a, b)
    ensures b in items[1..] ==> Before(items, items[0], b)
  {
    var tail := items[1..];
    if Before(tail, a, b) {
      var i, j :| 0 <= i < j < |tail| && tail[i] == a && tail[j] == b;
      assert items[i + 1] == a && items[j + 1] == b;
    }
    if b in tail {
      var j :| 0 <= j < |tail| && tail[j] == b;
      assert items[j + 1] == b;
    }
  }

  /** Two items left over stand in the same order as before. */
  lemma {:induction false} WithoutPair(items: seq<Item>, id: Id, i: nat, j: nat)
    requires i < j < |Without(items, id)|
    ensures Before(items, Without(items, id)[i], Without(items, id)[j])
  {
    hide Before;
    var tail, rest := items[1..], Without(items[1..], id);
    var r := Without(items, id);
    BeforeInTail(items, r[i], r[j]);
    if items[0].id == id {
      WithoutPair(tail, id, i, j);
    } else if i == 0 {
      WithoutItems(tail, id);
      assert r[j] == rest[j - 1];
    } else {
      WithoutPair(tail, id, i - 1, j - 1);
    }
  }

  lemma WithoutKeepsDistinct(items: seq<Item>, id: Id)
    requires UniqueIds(items) && UniqueNames(items) && UniqueOrders(items)
    ensures UniqueIds(Without(items, id)) && UniqueNames(Without(items, id)) && UniqueOrders(Without(items, id))
  {
    var r := Without(items, id);
    forall i, j | 0 <= i < j < |r|
      ensures r[i].id != r[j].id && r[i].name != r[j].name && r[i].order != r[j].order
    {
      WithoutPair(items, id, i, j);
    }
  }

  lemma CreateKeepsSound(s: Catalog, id: Id, name: string)
    requires Sound(s) && !HasId(s.items, id)
    ensures Sound(Create(s, PastMax, id, name).0)
  {
    var r := Create(s, PastMax, id, name).0;
    if !HasName(s.items, name) {
      CreateKeepsOrders(s.items, PastMax, id, name);
      forall i, c: Column | 0 <= i < |r.refs| && r.refs[i].Get(c).Some?
        ensures HasId(r.items, r.refs[i].Get(c).value)
      {
        var x := s.refs[i].Get(c).value;
        assert HasId(s.items, x);
        var j :| 0 <= j < |s.items| && s.items[j].id == x;
        assert r.items[j].id == x;
      }
    }
  }

  lemma ReorderKeepsSound(s: Catalog, id: Id, newOrder: int)
    requires Sound(s)
    ensures Sound(Reorder(s, id, newOrder).0)
  {
    var r := Reorder(s, id, newOrder).0;
    var found := Find(s.items, id);
    if found.Some? && found.value.order != newOrder {
      var k :| 0 <= k < |s.items| && s.items[k] == found.value;
      ReorderByIdIsShift(s.items, k, newOrder);
      ReorderedKeepsOrder(s.items, k, newOrder);
      forall i, c: Column | 0 <= i < |r.refs| && r.refs[i].Get(c).Some?
        ensures HasId(r.items, r.refs[i].Get(c).value)
      {
        var x := s.refs[i].Get(c).value;
        assert HasId(s.items, x);
        var j :| 0 <= j < |s.items| && s.items[j].id == x;
        assert r.items[j].id == x;
      }
    }
  }

  lemma RemoveKeepsSound(s: Catalog, id: Id, replacementId: Id)
    requires Sound(s)
    ensures Sound(Remove(s, true, true, id, replacementId).0)
  {
    var r := Remove(s, true, true, id, replacementId);
    if r.1 == Done {
      WithoutKeepsDistinct(s.items, id);
      WithoutItems(s.items, id);
      forall i, c: Column | 0 <= i < |r.0.refs| && r.0.refs[i].Get(c).Some?
        ensures HasId(r.0.items, r.0.refs[i].Get(c).value)
      {
        RedirectionConserves(s.refs, id, replacementId, c, id);
        var was := s.refs[i].Get(c).value;
        var x := if was == id then replacementId else was;
        assert HasId(s.items, was);
        var j :| 0 <= j < |s.items| && s.items[j].id == x;
        assert s.items[j] in r.0.items;
      }
    }
  }

  /** Every run of creations, reorderings and removals keeps ids, names and orders distinct, and every
      reference pointing at an existing item. */
  lemma {:induction false} RunsStaySound(s: Catalog, ops: seq<Op>)
    requires Sound(s)
    ensures Sound(ApplyAll(s, PastMax, ops))
  {
    if ops != [] {
      var before := ApplyAll(s, PastMax, ops[..|ops| - 1]);
      RunsStaySound(s, ops[..|ops| - 1]);
      match ops[|ops| - 1]
      case CreateOp(id, name) =>
        if !HasId(before.items, id) {
          CreateKeepsSound(before, id, name);
        }
      case ReorderOp(id, newOrder) => ReorderKeepsSound(before, id, newOrder);
      case RemoveOp(id, replacementId) => RemoveKeepsSound(before, id, replacementId);
    }
  }

  // ---------------------------------------------------------------- currencies

  /** The orders are exactly 1..n. */
  predicate Dense(items: seq<Item>) {
    UniqueOrders(items) && forall i :: 0 <= i < |items| ==> 1 <= items[i].order <= |items|
  }

  predicate KeepsDense(s: Catalog, op: Op) {
    match op
    case CreateOp(_, _) => true
    case ReorderOp(_, newOrder) => 1 <= newOrder <= |s.items|
    case RemoveOp(_, _) => false
  }

  lemma DenseCreate(items: seq<Item>, numbering: Numbering, id: Id, name: string)
    requires UniqueIds(items) && Dense(items) && !HasId(items, id)
    ensures
      var r := items + [Item(id, name, NextOrder(items, numbering))];
      UniqueIds(r) && Dense(r)
  {
    hide NextOrder;
    DenseMax(items);
    var r := items + [Item(id, name, NextOrder(items, numbering))];
    assert NextOrder(items, numbering) == |items| + 1;
    assert forall i :: 0 <= i < |items| ==> r[i] == items[i];
  }

  lemma DenseReorder(items: seq<Item>, k: nat, target: int)
    requires UniqueIds(items) && Dense(items) && k < |items| && 1 <= target <= |items|
    ensures
      var r := ReorderedById(items, items[k].id, items[k].order, target);
      UniqueIds(r) && Dense(r)
  {
    ReorderByIdIsShift(items, k, target);
    ReorderedKeepsOrder(items, k, target);
  }

  lemma DenseStep(s: Catalog, numbering: Numbering, op: Op)
    requires UniqueIds(s.items) && Dense(s.items) && KeepsDense(s, op)
    ensures
      var r := Apply(s, numbering, op);
      UniqueIds(r.items) && Dense(r.items)
  {
    hide UniqueIds, Dense, HasName, HasId, NextOrder, ReorderedById;
    match op
    case CreateOp(id, name) =>
      if !HasId(s.items, id) {
        DenseCreate(s.items, numbering, id, name);
      }
    case ReorderOp(id, newOrder) =>
      var found := Find(s.items, id);
      if found.Some? {
        var k :| 0 <= k < |s.items| && s.items[k] == found.value;
        DenseReorder(s.items, k, newOrder);
      }
  }

  function Orders(items: seq<Item>): set<int> {
    set i | 0 <= i < |items| :: items[i].order
  }

  lemma {:induction false} OrdersSize(items: seq<Item>)
    requires UniqueOrders(items)
    ensures |Orders(items)| == |items|
  {
    if items != [] {
      var init, last := items[..|items| - 1], items[|items| - 1];
      OrdersSize(init);
      assert Orders(items) == Orders(init) + {last.order};
      assert last.order !in Orders(init);
    }
  }

  function UpTo(n: nat): (r: set<int>)
    ensures |r| == n && forall x :: x in r <==> 1 <= x <= n
  {
    if n == 0 then {} else UpTo(n - 1) + {n}
  }

  /** Orders 1..n leave nothing out, so both numberings continue with n + 1. */
  lemma DenseMax(items: seq<Item>)
    requires Dense(items)
    ensures NextOrder(items, PastMax) == NextOrder(items, PastCount) == |items| + 1
  {
    MaxOrderBounds(items);
    if items != [] {
      TopOrder(items);
      MaxOrderAttained(items);
    }
  }

  lemma {:induction false} MaxOrderAttained(items: seq<Item>)
    requires items != []
    ensures exists i :: 0 <= i < |items| && items[i].order == MaxOrder(items).value
  {
    if |items| == 1 {
      assert items[0].order == MaxOrder(items).value;
    } else {
      MaxOrderAttained(items[1..]);
      var i :| 0 <= i < |items[1..]| && items[1..][i].order == MaxOrder(items[1..]).value;
      assert items[i + 1].order == MaxOrder(items[1..]).value;
      assert items[0].order == MaxOrder(items).value || items[i + 1].order == MaxOrder(items).value;
    }
  }

  /** Orders stay 1..n in every run without removals and with targets in range. */
  lemma {:induction false} RunsStayDense(s: Catalog, numbering: Numbering, ops: seq<Op>)
    requires UniqueIds(s.items) && Dense(s.items)
    requires forall k :: 0 <= k < |ops| ==> KeepsDense(ApplyAll(s, numbering, ops[..k]), ops[k])
    ensures
      var r := ApplyAll(s, numbering, ops);
      UniqueIds(r.items) && Dense(r.items)
  {
    if ops != [] {
      var init := ops[..|ops| - 1];
      forall k | 0 <= k < |init|
        ensures KeepsDense(ApplyAll(s, numbering, init[..k]), init[k])
      {
        assert init[..k] == ops[..k];
      }
      RunsStayDense(s, numbering, init);
      DenseStep(ApplyAll(s, numbering, init), numbering, ops[|ops| - 1]);
    }
  }

  lemma {:induction false} WithoutSize(items: seq<Item>, id: Id)
    requires UniqueIds(items)
    ensures |Without(items, id)| == |items| - if HasId(items, id) then 1 else 0
  {
    if items != [] {
      var tail := items[1..];
      assert forall i :: 0 <= i < |tail| ==> tail[i] == items[i + 1];
      WithoutSize(tail, id);
      if items[0].id == id {
        assert !HasId(tail, id);
      } else if HasId(items, id) {
        var i :| 0 <= i < |items| && items[i].id == id;
        assert tail[i - 1].id == id;
      }
    }
  }

  /** From orders 1..n, removing the item with order k makes the next creation by count collide exactly
      when k < n; numbering past the maximum never collides. */
  lemma RemovalThenCreate(s: Catalog, k: nat, replacementId: Id, numbering: Numbering, newId: Id, name: string)
    requires UniqueIds(s.items) && Dense(s.items) && k < |s.items|
    requires replacementId != s.items[k].id && HasId(s.items, replacementId)
    requires !HasName(Without(s.items, s.items[k].id), name)
    ensures
      var removed := Remove(s, true, true, s.items[k].id, replacementId);
      var created := Create(removed.0, numbering, newId, name);
      && removed.1 == Done && created.1 == Done
      && (UniqueOrders(created.0.items) <==> numbering == PastMax || s.items[k].order == |s.items|)
  {
    hide NextOrder, Without, Dense, UniqueOrders, HasName, AllRedirected;
    assert HasId(s.items, s.items[k].id);
    CollisionExact(s.items, k, numbering, newId, name);
  }

  lemma CollisionExact(items: seq<Item>, k: nat, numbering: Numbering, newId: Id, name: string)
    requires UniqueIds(items) && Dense(items) && k < |items|
    ensures
      var left := Without(items, items[k].id);
      UniqueOrders(left + [Item(newId, name, NextOrder(left, numbering))])
      <==> numbering == PastMax || items[k].order == |items|
  {
    hide Without;
    var n, left := |items|, Without(items, items[k].id);
    assert HasId(items, items[k].id);
    WithoutSize(items, items[k].id);
    WithoutItems(items, items[k].id);
    LeftOrdersUnique(items, items[k].id);
    CreateKeepsOrders(left, numbering, newId, name);
    TopOrder(items);
    var top :| top in items && top.order == n;
    SameOrder(items, items[k], top);
    if items[k].order == n {
      forall i | 0 <= i < |left|
        ensures left[i].order != n
      {
        assert left[i] in left;
        SameOrder(items, left[i], top);
      }
    } else {
      assert top in left;
    }
  }

  lemma LeftOrdersUnique(items: seq<Item>, id: Id)
    requires UniqueOrders(items)
    ensures UniqueOrders(Without(items, id))
  {
    var r := Without(items, id);
    forall i, j | 0 <= i < j < |r|
      ensures r[i].order != r[j].order
    {
      WithoutPair(items, id, i, j);
    }
  }

  lemma SameOrder(items: seq<Item>, a: Item, b: Item)
    requires Dense(items) && UniqueIds(items) && a in items && b in items
    ensures a.order == b.order <==> a.id == b.id
  {
    var i :| 0 <= i < |items| && items[i] == a;
    var j :| 0 <= j < |items| && items[j] == b;
  }

  /** Orders 1..n include n. */
  lemma TopOrder(items: seq<Item>)
    requires Dense(items) && items != []
    ensures exists x :: x in items && x.order == |items|
  {
    OrdersSize(items);
    assert Orders(items) <= UpTo(|items|);
    SubsetOfSameSize(Orders(items), UpTo(|items|));
    assert |items| in Orders(items);
    var i :| 0 <= i < |items| && items[i].order == |items|;
    assert items[i] in items;
  }

  /** Removing a currency and creating another can give two currencies the same order. */
  lemma CountNumberingCollides()
    ensures
      var s := Catalog([Item(1, "USD", 1), Item(2, "EUR", 2), Item(3, "AED", 3)], []);
      var r := ApplyAll(s, PastCount, [RemoveOp(1, 2), CreateOp(4, "GBP")]);
      Sound(s) && Dense(s.items) && r.items == [Item(2, "EUR", 2), Item(3, "AED", 3), Item(4, "GBP", 3)]
  {
    hide AllRedirected, Sound, Dense;
    var items := [Item(1, "USD", 1), Item(2, "EUR", 2), Item(3, "AED", 3)];
    var s := Catalog(items, []);
    CollisionStart();
    var s1 := Apply(s, PastCount, RemoveOp(1, 2));
    assert items[0].id == 1 && items[1].id == 2;
    assert items[1..] == [Item(2, "EUR", 2), Item(3, "AED", 3)];
    assert items[1..][1..] == [Item(3, "AED", 3)];
    assert s1.items == [Item(2, "EUR", 2), Item(3, "AED", 3)];
    assert [RemoveOp(1, 2)][..0] == [];
    assert ApplyAll(s, PastCount, [RemoveOp(1, 2)]) == s1;
    assert [RemoveOp(1, 2), CreateOp(4, "GBP")][..1] == [RemoveOp(1, 2)];
    assert !HasId(s1.items, 4) && !HasName(s1.items, "GBP");
  }

  lemma CollisionStart()
    ensures
      var s := Catalog([Item(1, "USD", 1), Item(2, "EUR", 2), Item(3, "AED", 3)], []);
      Sound(s) && Dense(s.items)
  {
    assert "USD"[0] != "EUR"[0] && "USD"[0] != "AED"[0] && "EUR"[0] != "AED"[0];
  }
}
