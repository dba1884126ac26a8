/** The order resource of the art catalog: two relational tables without a
    foreign key between them (orders, and the items in each order), and the
    classmethods that keep them consistent at the application level. A
    SELECT by template is a filter of a table, a DELETE by key list removes
    the matching rows, and an INSERT appends a row with the next generated
    id. */
module OrdersResource {
  import opened Wrappers
  import opened Seqs
  import opened Decimal
  import opened SqlText
  import opened RdbService

  /** One row of `art_catalog.orders`: its generated id and its other columns. */
  datatype OrderRow = OrderRow(orderId: int, attrs: seq<Pair>)

  /** One row of `art_catalog.order_items`, keyed by (orderId, itemId);
      `recordId` is the id the insert generated. */
  datatype ItemRow = ItemRow(recordId: int, orderId: int, itemId: int, attrs: seq<Pair>)

  /** What a caller passes to add_item_to_order. */
  datatype ItemInfo = ItemInfo(orderId: int, itemId: int, attrs: seq<Pair>)

  /** A `{"href": ..., "rel": ...}` entry. */
  datatype Link = Link(href: string, rel: string)

  /** An order row with the `links` entry the listing attaches to it. */
  datatype LinkedOrder = LinkedOrder(order: OrderRow, links: seq<Link>)

  /** retrieve_single_item_in_given_order: None, False, or the row. */
  datatype ItemLookup = OrderMissing | ItemMissing | Found(row: ItemRow)

  /** retrieve_all_items_in_given_order: None, the rows, or their links. */
  datatype ItemListing = ListingOrderMissing | Rows(rows: seq<ItemRow>) | Links(links: seq<Link>)

  /** The dict add_item_to_order returns. */
  datatype AddedItem = AddedItem(orderId: int, itemId: int, recordId: int)

  /** The statements that change a table, in the order they are issued. */
  datatype Statement =
    | InsertOrderRow(orderId: int)
    | InsertItemRow(recordId: int, orderId: int, itemId: int)
    | DeleteItemRows(orderId: int, itemId: int)
    | DeleteOrderRows(orderId: int)

  const OrderLinkPrefix := "/orders/"
  const ItemLinkInfix := "/orderitems/"
  const ItemRel := "order_item"

  // ---------------------------------------------------------------------
  // The tables as sequences of rows

  /** find_by_template on the orders table with `{"order_id": orderId}`. */
  function OrdersWithId(orders: seq<OrderRow>, orderId: int): seq<OrderRow> {
    Filter(orders, (r: OrderRow) => r.orderId == orderId)
  }

  /** find_by_template on the items table with `{"order_id": orderId}`. */
  function ItemsOf(items: seq<ItemRow>, orderId: int): seq<ItemRow> {
    Filter(items, (r: ItemRow) => r.orderId == orderId)
  }

  predicate SameKey(r: ItemRow, orderId: int, itemId: int) {
    r.orderId == orderId && r.itemId == itemId
  }

  /** find_by_template on the items table with both key columns. */
  function ItemsWithKey(items: seq<ItemRow>, orderId: int, itemId: int): seq<ItemRow> {
    Filter(items, (r: ItemRow) => SameKey(r, orderId, itemId))
  }

  /** delete_record_by_multikey on the items table with both key columns. */
  function WithoutItem(items: seq<ItemRow>, orderId: int, itemId: int): seq<ItemRow> {
    Filter(items, (r: ItemRow) => !SameKey(r, orderId, itemId))
  }

  /** delete_record_by_multikey on the orders table with `order_id`. */
  function WithoutOrder(orders: seq<OrderRow>, orderId: int): seq<OrderRow> {
    Filter(orders, (r: OrderRow) => r.orderId != orderId)
  }

  /** The items table once every item of `orderId` is gone. */
  function WithoutOrderItems(items: seq<ItemRow>, orderId: int): seq<ItemRow> {
    Filter(items, (r: ItemRow) => r.orderId != orderId)
  }

  /** Whether a row of `keys` has the key of `r`. */
  predicate KeyIn(r: ItemRow, keys: seq<ItemRow>) {
    exists j :: 0 <= j < |keys| && SameKey(r, keys[j].orderId, keys[j].itemId)
  }

  /** The items table once the key of every row of `keys` is deleted. */
  function WithoutKeys(items: seq<ItemRow>, keys: seq<ItemRow>): seq<ItemRow> {
    Filter(items, (r: ItemRow) => !KeyIn(r, keys))
  }

  /** The row create_new_record appends for `info` under record id `recordId`. */
  function NewItemRow(info: ItemInfo, recordId: int): ItemRow {
    ItemRow(recordId, info.orderId, info.itemId, info.attrs)
  }

  /** "Add" is "replace": the old entry with that key goes, the new one is appended. */
  function ReplaceItem(items: seq<ItemRow>, info: ItemInfo, recordId: int): (r: seq<ItemRow>)
    ensures |r| >= 1 && r[|r| - 1] == NewItemRow(info, recordId)
    ensures forall k :: 0 <= k < |r| - 1 ==> r[k] in items && !SameKey(r[k], info.orderId, info.itemId)
    ensures forall k :: 0 <= k < |items| && !SameKey(items[k], info.orderId, info.itemId) ==> items[k] in r
  {
    WithoutItem(items, info.orderId, info.itemId) + [NewItemRow(info, recordId)]
  }

  predicate HasOrder(orders: seq<OrderRow>, orderId: int) {
    exists k :: 0 <= k < |orders| && orders[k].orderId == orderId
  }

  predicate HasItem(items: seq<ItemRow>, orderId: int, itemId: int) {
    exists k :: 0 <= k < |items| && SameKey(items[k], orderId, itemId)
  }

  /** One item DELETE per row, in the rows' order. */
  function ItemDeletes(rows: seq<ItemRow>): seq<Statement> {
    seq(|rows|, k requires 0 <= k < |rows| => DeleteItemRows(rows[k].orderId, rows[k].itemId))
  }

  predicate DifferentOrderIds(a: OrderRow, b: OrderRow) {
    a.orderId != b.orderId
  }

  predicate DifferentKeys(a: ItemRow, b: ItemRow) {
    !SameKey(a, b.orderId, b.itemId)
  }

  predicate DistinctOrderIds(orders: seq<OrderRow>) {
    Pairwise(orders, DifferentOrderIds)
  }

  /** At most one item row per (orderId, itemId). */
  predicate DistinctItemKeys(items: seq<ItemRow>) {
    Pairwise(items, DifferentKeys)
  }

  predicate OrderIdsBelow(orders: seq<OrderRow>, next: int) {
    forall k :: 0 <= k < |orders| ==> orders[k].orderId < next
  }

  predicate RecordIdsBelow(items: seq<ItemRow>, next: int) {
    forall k :: 0 <= k < |items| ==> items[k].recordId < next
  }

  /** Referential integrity: every item row belongs to an existing order. */
  predicate ItemsHaveOrders(orders: seq<OrderRow>, items: seq<ItemRow>) {
    forall k :: 0 <= k < |items| ==> HasOrder(orders, items[k].orderId)
  }

  // ---------------------------------------------------------------------
  // Hyperlinks

  /** The href of item `itemId` in order `orderId`. */
  function Href(orderId: int, itemId: int): string {
    OrderLinkPrefix + IntToString(orderId) + ItemLinkInfix + IntToString(itemId)
  }

  /** One link per row, in the rows' order. */
  function ItemLinks(rows: seq<ItemRow>, orderId: int): seq<Link> {
    seq(|rows|, k requires 0 <= k < |rows| => Link(Href(orderId, rows[k].itemId), ItemRel))
  }

  /** A route `<prefix><int><infix><int>` read back into its two ids; the
      first id ends at the first character of the infix. */
  function ParseRoute(h: string, prefix: string, infix: string): Option<(int, int)>
    requires |infix| > 0
  {
    if |h| < |prefix| || h[..|prefix|] != prefix then None
    else
      var rest := h[|prefix|..];
      match IndexOf(rest, infix[0])
      case None => None
      case Some(j) =>
        var tail := rest[j..];
        if |tail| < |infix| || tail[..|infix|] != infix then None
        else
          match (ParseInt(rest[..j]), ParseInt(tail[|infix|..]))
          case (Some(o), Some(i)) => Some((o, i))
          case _ => None
  }

  /** The route `/orders/<order_id>/orderitems/<item_id>` read back into its
      two ids. */
  function ParseHref(h: string): Option<(int, int)> {
    ParseRoute(h, OrderLinkPrefix, ItemLinkInfix)
  }

  // ---------------------------------------------------------------------
  // Lemmas about the tables

  lemma {:induction false} OrdersWithIdNonEmpty(orders: seq<OrderRow>, orderId: int)
    ensures OrdersWithId(orders, orderId) != [] <==> HasOrder(orders, orderId)
  {
    var r := OrdersWithId(orders, orderId);
    if r != [] {
      assert r[0] in orders;
      var k :| 0 <= k < |orders| && orders[k] == r[0];
    }
    if HasOrder(orders, orderId) {
      var k :| 0 <= k < |orders| && orders[k].orderId == orderId;
      assert orders[k] in r;
    }
  }

  lemma {:induction false} ItemsWithKeyNonEmpty(items: seq<ItemRow>, orderId: int, itemId: int)
    ensures ItemsWithKey(items, orderId, itemId) != [] <==> HasItem(items, orderId, itemId)
  {
    var r := ItemsWithKey(items, orderId, itemId);
    if r != [] {
      assert r[0] in items;
      var k :| 0 <= k < |items| && items[k] == r[0];
    }
    if HasItem(items, orderId, itemId) {
      var k :| 0 <= k < |items| && SameKey(items[k], orderId, itemId);
      assert items[k] in r;
    }
  }

  /** With distinct order ids an existing order matches exactly one row. */
  lemma {:induction false} OneOrderPerId(orders: seq<OrderRow>, orderId: int)
    requires DistinctOrderIds(orders) && HasOrder(orders, orderId)
    ensures |OrdersWithId(orders, orderId)| == 1
  {
    var t := orders[1..];
    assert forall j, k :: 0 <= j < k < |t| ==> t[j] == orders[j + 1] && t[k] == orders[k + 1];
    if orders[0].orderId == orderId {
      assert forall k :: 0 <= k < |t| ==> t[k].orderId != orderId;
      OrdersWithIdNonEmpty(t, orderId);
    } else {
      var k :| 0 <= k < |orders| && orders[k].orderId == orderId;
      assert t[k - 1].orderId == orderId;
      OneOrderPerId(t, orderId);
    }
  }

  /** Deleting a key leaves no row with that key and keeps every other
      key's rows. */
  lemma {:induction false} WithoutItemRemovesKey(items: seq<ItemRow>, orderId: int, itemId: int, o: int, i: int)
    ensures !HasItem(WithoutItem(items, orderId, itemId), orderId, itemId)
    ensures (o, i) != (orderId, itemId) ==>
              ItemsWithKey(WithoutItem(items, orderId, itemId), o, i) == ItemsWithKey(items, o, i)
  {
    if (o, i) != (orderId, itemId) {
      FilterTwice(items, (x: ItemRow) => !SameKey(x, orderId, itemId), (x: ItemRow) => SameKey(x, o, i),
                  (x: ItemRow) => SameKey(x, o, i));
    }
  }

  /** Deleting a key no row has changes nothing. */
  lemma {:induction false} WithoutAbsentItem(items: seq<ItemRow>, orderId: int, itemId: int)
    requires !HasItem(items, orderId, itemId)
    ensures WithoutItem(items, orderId, itemId) == items
  {
    forall x | x in items ensures !SameKey(x, orderId, itemId) {
      var k :| 0 <= k < |items| && items[k] == x;
    }
    FilterKeepsAll(items, (x: ItemRow) => !SameKey(x, orderId, itemId));
  }

  /** With distinct keys, deleting an existing key removes exactly one row. */
  lemma {:induction false} WithoutItemRemovesOne(items: seq<ItemRow>, orderId: int, itemId: int)
    requires DistinctItemKeys(items) && HasItem(items, orderId, itemId)
    ensures |WithoutItem(items, orderId, itemId)| == |items| - 1
  {
    var t := items[1..];
    assert forall j, k :: 0 <= j < k < |t| ==> t[j] == items[j + 1] && t[k] == items[k + 1];
    if SameKey(items[0], orderId, itemId) {
      assert forall k :: 0 <= k < |t| ==> !SameKey(t[k], orderId, itemId);
      WithoutAbsentItem(t, orderId, itemId);
    } else {
      var k :| 0 <= k < |items| && SameKey(items[k], orderId, itemId);
      assert SameKey(t[k - 1], orderId, itemId);
      WithoutItemRemovesOne(t, orderId, itemId);
    }
  }

  /** After "add", exactly one row carries the key, and it carries the
      supplied payload and the new record id. */
  lemma {:induction false} ReplaceItemLeavesOneRow(items: seq<ItemRow>, info: ItemInfo, recordId: int)
    ensures ItemsWithKey(ReplaceItem(items, info, recordId), info.orderId, info.itemId) == [NewItemRow(info, recordId)]
  {
    var w := WithoutItem(items, info.orderId, info.itemId);
    var p := (r: ItemRow) => SameKey(r, info.orderId, info.itemId);
    FilterConcat(w, [NewItemRow(info, recordId)], p);
    WithoutItemRemovesKey(items, info.orderId, info.itemId, info.orderId, info.itemId);
    ItemsWithKeyNonEmpty(w, info.orderId, info.itemId);
    assert [NewItemRow(info, recordId)][1..] == [];
  }

  /** "Add" leaves the rows of every other key as they were. */
  lemma {:induction false} ReplaceItemKeepsOthers(items: seq<ItemRow>, info: ItemInfo, recordId: int, o: int, i: int)
    requires (o, i) != (info.orderId, info.itemId)
    ensures ItemsWithKey(ReplaceItem(items, info, recordId), o, i) == ItemsWithKey(items, o, i)
  {
    var w := WithoutItem(items, info.orderId, info.itemId);
    FilterConcat(w, [NewItemRow(info, recordId)], (r: ItemRow) => SameKey(r, o, i));
    WithoutItemRemovesKey(items, info.orderId, info.itemId, o, i);
    assert [NewItemRow(info, recordId)][1..] == [];
  }

  /** Adding the same item twice leaves the table a single add would, apart
      from the generated record id. */
  lemma {:induction false} ReplaceItemIdempotent(items: seq<ItemRow>, info: ItemInfo, first: int, second: int)
    ensures ReplaceItem(ReplaceItem(items, info, first), info, second) == ReplaceItem(items, info, second)
  {
    var o, i := info.orderId, info.itemId;
    var w := WithoutItem(items, o, i);
    var p := (r: ItemRow) => !SameKey(r, o, i);
    FilterConcat(w, [NewItemRow(info, first)], p);
    assert [NewItemRow(info, first)][1..] == [];
    forall x | x in w ensures p(x) {
      var k :| 0 <= k < |w| && w[k] == x;
    }
    FilterKeepsAll(w, p);
  }

  /** Deleting an order's items leaves none of them and keeps every other
      order's items. */
  lemma {:induction false} CascadeRemovesChildren(items: seq<ItemRow>, orderId: int, other: int)
    ensures ItemsOf(WithoutOrderItems(items, orderId), orderId) == []
    ensures other != orderId ==> ItemsOf(WithoutOrderItems(items, orderId), other) == ItemsOf(items, other)
  {
    var w := WithoutOrderItems(items, orderId);
    forall x | x in w ensures x.orderId != orderId {
      var k :| 0 <= k < |w| && w[k] == x;
    }
    FilterRejectsAll(w, (x: ItemRow) => x.orderId == orderId);
    if other != orderId {
      FilterTwice(items, (x: ItemRow) => x.orderId != orderId, (x: ItemRow) => x.orderId == other,
                  (x: ItemRow) => x.orderId == other);
    }
  }

  /** Deleting an order row leaves no row with its id and keeps the others. */
  lemma {:induction false} WithoutOrderRemovesId(orders: seq<OrderRow>, orderId: int, other: int)
    ensures !HasOrder(WithoutOrder(orders, orderId), orderId)
    ensures other != orderId ==> OrdersWithId(WithoutOrder(orders, orderId), other) == OrdersWithId(orders, other)
  {
    if other != orderId {
      FilterTwice(orders, (x: OrderRow) => x.orderId != orderId, (x: OrderRow) => x.orderId == other,
                  (x: OrderRow) => x.orderId == other);
    }
  }

  lemma {:induction false} WithoutNoKeys(items: seq<ItemRow>)
    ensures WithoutKeys(items, []) == items
  {
    FilterKeepsAll(items, (r: ItemRow) => !KeyIn(r, []));
  }

  /** Deleting one more key: the loop step of the cascade. */
  lemma {:induction false} WithoutKeysStep(items: seq<ItemRow>, keys: seq<ItemRow>, row: ItemRow)
    ensures WithoutItem(WithoutKeys(items, keys), row.orderId, row.itemId) == WithoutKeys(items, keys + [row])
  {
    var ks := keys + [row];
    forall x: ItemRow ensures KeyIn(x, ks) == (KeyIn(x, keys) || SameKey(x, row.orderId, row.itemId)) {
      if KeyIn(x, keys) {
        var j :| 0 <= j < |keys| && SameKey(x, keys[j].orderId, keys[j].itemId);
        assert ks[j] == keys[j];
      }
      if SameKey(x, row.orderId, row.itemId) {
        assert ks[|keys|] == row;
      }
      if KeyIn(x, ks) {
        var j :| 0 <= j < |ks| && SameKey(x, ks[j].orderId, ks[j].itemId);
        if j < |keys| {
          assert ks[j] == keys[j];
        }
      }
    }
    FilterTwice(items, (r: ItemRow) => !KeyIn(r, keys), (r: ItemRow) => !SameKey(r, row.orderId, row.itemId),
                (r: ItemRow) => !KeyIn(r, ks));
  }

  /** Deleting the key of every item of an order deletes the order's items. */
  lemma {:induction false} WithoutKeysOfOrder(items: seq<ItemRow>, orderId: int)
    ensures WithoutKeys(items, ItemsOf(items, orderId)) == WithoutOrderItems(items, orderId)
  {
    var all := ItemsOf(items, orderId);
    forall x | x in items ensures !KeyIn(x, all) == (x.orderId != orderId) {
      if KeyIn(x, all) {
        var j :| 0 <= j < |all| && SameKey(x, all[j].orderId, all[j].itemId);
        assert all[j].orderId == orderId;
      }
      if x.orderId == orderId {
        var k :| 0 <= k < |items| && items[k] == x;
        assert x in all;
        var j :| 0 <= j < |all| && all[j] == x;
        assert SameKey(x, all[j].orderId, all[j].itemId);
      }
    }
    FilterAgree(items, (r: ItemRow) => !KeyIn(r, all), (r: ItemRow) => r.orderId != orderId);
  }

  /** In a list of rows with distinct keys, taken from the table, the k-th
      row survives deleting the keys of the rows before it. */
  lemma {:induction false} StillPresent(items: seq<ItemRow>, all: seq<ItemRow>, k: int)
    requires 0 <= k < |all| && all[k] in items && DistinctItemKeys(all)
    ensures HasItem(WithoutKeys(items, all[..k]), all[k].orderId, all[k].itemId)
  {
    var keys := all[..k];
    forall j | 0 <= j < |keys| ensures !SameKey(all[k], keys[j].orderId, keys[j].itemId) {
      assert keys[j] == all[j] && DifferentKeys(all[j], all[k]);
    }
    var w := WithoutKeys(items, keys);
    var m :| 0 <= m < |items| && items[m] == all[k];
    assert all[k] in w;
    var n :| 0 <= n < |w| && w[n] == all[k];
    assert SameKey(w[n], all[k].orderId, all[k].itemId);
  }

  lemma {:induction false} ItemDeletesSnoc(rows: seq<ItemRow>, row: ItemRow)
    ensures ItemDeletes(rows + [row]) == ItemDeletes(rows) + [DeleteItemRows(row.orderId, row.itemId)]
  {
    var rs := rows + [row];
    assert forall k :: 0 <= k < |rows| ==> rs[k] == rows[k];
  }

  /** The rows of one order are rows of the table, of that order, with
      distinct keys: the loop of remove_order_by_id can take them one by one. */
  lemma {:induction false} ItemsOfRemovable(items: seq<ItemRow>, orderId: int)
    requires DistinctItemKeys(items)
    ensures var all := ItemsOf(items, orderId);
      (forall k :: 0 <= k < |all| ==> all[k] in items && all[k].orderId == orderId) &&
      DistinctItemKeys(all)
  {
    FilterPairwise(items, (r: ItemRow) => r.orderId == orderId, DifferentKeys);
  }

  /** What remains once an order and all its items are deleted keeps the
      invariants of the two tables. */
  lemma {:induction false} CascadeKeepsInvariants(orders: seq<OrderRow>, items: seq<ItemRow>, orderId: int, next: int)
    requires ItemsHaveOrders(orders, items) && DistinctOrderIds(orders) && OrderIdsBelow(orders, next)
    ensures WithoutKeys(items, ItemsOf(items, orderId)) == WithoutOrderItems(items, orderId)
    ensures ItemsHaveOrders(WithoutOrder(orders, orderId), WithoutOrderItems(items, orderId))
    ensures DistinctOrderIds(WithoutOrder(orders, orderId)) && OrderIdsBelow(WithoutOrder(orders, orderId), next)
  {
    WithoutKeysOfOrder(items, orderId);
    CascadeKeepsIntegrity(orders, items, orderId);
    WithoutOrderKeepsInvariants(orders, orderId, next);
  }

  /** The link list of the href mode grows by one link per row. */
  lemma {:induction false} ItemLinksSnoc(rows: seq<ItemRow>, row: ItemRow, orderId: int)
    ensures ItemLinks(rows + [row], orderId) == ItemLinks(rows, orderId) + [Link(Href(orderId, row.itemId), ItemRel)]
  {
    var rs := rows + [row];
    assert forall k :: 0 <= k < |rows| ==> rs[k] == rows[k];
  }

  /** One more item delete appended to a trace. */
  lemma {:induction false} TraceStep(before: seq<Statement>, rows: seq<ItemRow>, row: ItemRow)
    ensures before + ItemDeletes(rows) + [DeleteItemRows(row.orderId, row.itemId)] ==
            before + ItemDeletes(rows + [row])
  {
    ItemDeletesSnoc(rows, row);
  }

  /** A row an item filter keeps is a row of the table. */
  lemma {:induction false} ItemFilterSubset(items: seq<ItemRow>, p: ItemRow -> bool)
    ensures forall k :: 0 <= k < |Filter(items, p)| ==>
              exists m :: 0 <= m < |items| && items[m] == Filter(items, p)[k]
  {
    var r := Filter(items, p);
    forall k | 0 <= k < |r| ensures exists m :: 0 <= m < |items| && items[m] == r[k] {
      assert r[k] in items;
    }
  }

  /** Deleting item rows keeps the invariants that speak of item rows. */
  lemma {:induction false} ItemFilterKeepsInvariants(orders: seq<OrderRow>, items: seq<ItemRow>, next: int, p: ItemRow -> bool)
    requires DistinctItemKeys(items) && RecordIdsBelow(items, next) && ItemsHaveOrders(orders, items)
    ensures var r := Filter(items, p);
      DistinctItemKeys(r) && RecordIdsBelow(r, next) && ItemsHaveOrders(orders, r)
  {
    var r := Filter(items, p);
    FilterPairwise(items, p, DifferentKeys);
    ItemFilterSubset(items, p);
    forall k | 0 <= k < |r| ensures r[k].recordId < next && HasOrder(orders, r[k].orderId) {
      var m :| 0 <= m < |items| && items[m] == r[k];
    }
  }

  /** Deleting one key keeps the item invariants and leaves no row with
      that key: one row fewer if the key was there, the same table if not. */
  lemma {:induction false} DeleteItemKeepsInvariants(orders: seq<OrderRow>, items: seq<ItemRow>, next: int,
                                                     orderId: int, itemId: int)
    requires DistinctItemKeys(items) && RecordIdsBelow(items, next) && ItemsHaveOrders(orders, items)
    ensures var w := WithoutItem(items, orderId, itemId);
      DistinctItemKeys(w) && RecordIdsBelow(w, next) && ItemsHaveOrders(orders, w) &&
      !HasItem(w, orderId, itemId) &&
      (HasItem(items, orderId, itemId) ==> |w| == |items| - 1) &&
      (!HasItem(items, orderId, itemId) ==> w == items)
  {
    WithoutItemRemovesKey(items, orderId, itemId, orderId, itemId);
    ItemFilterKeepsInvariants(orders, items, next, (x: ItemRow) => !SameKey(x, orderId, itemId));
    if HasItem(items, orderId, itemId) {
      WithoutItemRemovesOne(items, orderId, itemId);
    } else {
      WithoutAbsentItem(items, orderId, itemId);
    }
  }

  /** Appending the new row of "add" keeps the item invariants. */
  lemma {:induction false} ReplaceItemKeepsInvariants(orders: seq<OrderRow>, items: seq<ItemRow>, info: ItemInfo, next: int)
    requires DistinctItemKeys(items) && RecordIdsBelow(items, next) && ItemsHaveOrders(orders, items)
    requires HasOrder(orders, info.orderId)
    ensures var r := ReplaceItem(items, info, next);
      DistinctItemKeys(r) && RecordIdsBelow(r, next + 1) && ItemsHaveOrders(orders, r)
  {
    var w := WithoutItem(items, info.orderId, info.itemId);
    ItemFilterKeepsInvariants(orders, items, next, (r: ItemRow) => !SameKey(r, info.orderId, info.itemId));
    WithoutItemRemovesKey(items, info.orderId, info.itemId, info.orderId, info.itemId);
    var r := w + [NewItemRow(info, next)];
    forall j, k | 0 <= j < k < |r| ensures DifferentKeys(r[j], r[k]) {
      if k == |w| {
        assert r[j] == w[j];
      } else {
        assert r[j] == w[j] && r[k] == w[k];
      }
    }
  }

  /** Appending an order row under the next id keeps the order invariants;
      no earlier row has that id. */
  lemma {:induction false} AppendOrderKeepsInvariants(orders: seq<OrderRow>, items: seq<ItemRow>, row: OrderRow)
    requires DistinctOrderIds(orders) && OrderIdsBelow(orders, row.orderId) && ItemsHaveOrders(orders, items)
    ensures !HasOrder(orders, row.orderId)
    ensures var r := orders + [row];
      DistinctOrderIds(r) && OrderIdsBelow(r, row.orderId + 1) && ItemsHaveOrders(r, items)
  {
    var r := orders + [row];
    assert forall k :: 0 <= k < |orders| ==> r[k] == orders[k];
    forall k | 0 <= k < |items| ensures HasOrder(r, items[k].orderId) {
      var m :| 0 <= m < |orders| && orders[m].orderId == items[k].orderId;
      assert r[m] == orders[m];
    }
  }

  /** The cascade keeps referential integrity: the surviving items all
      belong to surviving orders. */
  lemma {:induction false} CascadeKeepsIntegrity(orders: seq<OrderRow>, items: seq<ItemRow>, orderId: int)
    requires ItemsHaveOrders(orders, items)
    ensures ItemsHaveOrders(WithoutOrder(orders, orderId), WithoutOrderItems(items, orderId))
  {
    var os := WithoutOrder(orders, orderId);
    var r := WithoutOrderItems(items, orderId);
    ItemFilterSubset(items, (x: ItemRow) => x.orderId != orderId);
    forall k | 0 <= k < |r| ensures HasOrder(os, r[k].orderId) {
      var m :| 0 <= m < |items| && items[m] == r[k];
      var n :| 0 <= n < |orders| && orders[n].orderId == r[k].orderId;
      assert orders[n] in os;
      var q :| 0 <= q < |os| && os[q] == orders[n];
    }
  }

  /** Deleting an order row keeps the order invariants. */
  lemma {:induction false} WithoutOrderKeepsInvariants(orders: seq<OrderRow>, orderId: int, next: int)
    requires DistinctOrderIds(orders) && OrderIdsBelow(orders, next)
    ensures var r := WithoutOrder(orders, orderId);
      DistinctOrderIds(r) && OrderIdsBelow(r, next)
  {
    var p := (x: OrderRow) => x.orderId != orderId;
    var r := Filter(orders, p);
    FilterPairwise(orders, p, DifferentOrderIds);
    forall k | 0 <= k < |r| ensures r[k].orderId < next {
      assert r[k] in orders;
      var m :| 0 <= m < |orders| && orders[m] == r[k];
    }
  }

  // ---------------------------------------------------------------------
  // Lemmas about the links

  /** A route built from two ids reads back as those ids, whenever the
      infix starts with a character no decimal literal holds. */
  lemma {:induction false} ParseRouteRoundTrip(prefix: string, infix: string, o: int, i: int)
    requires |infix| > 0 && !IsDigit(infix[0]) && infix[0] != '-'
    ensures ParseRoute(prefix + IntToString(o) + infix + IntToString(i), prefix, infix) == Some((o, i))
  {
    var a := IntToString(o);
    var b := IntToString(i);
    var h := prefix + a + infix + b;
    var rest := a + (infix + b);
    assert h == prefix + rest;
    assert h[..|prefix|] == prefix;
    assert h[|prefix|..] == rest;
    IndexOfAfter(a, infix + b, infix[0]);
    var tail := rest[|a|..];
    assert tail == infix + b;
    assert tail[..|infix|] == infix;
    assert tail[|infix|..] == b;
    assert rest[..|a|] == a;
    IntToStringRoundTrip(o);
    IntToStringRoundTrip(i);
  }

  /** An item's href reads back as the route to that very item. */
  lemma {:induction false} HrefRoundTrip(orderId: int, itemId: int)
    ensures ParseHref(Href(orderId, itemId)) == Some((orderId, itemId))
  {
    assert ItemLinkInfix[0] == '/';
    ParseRouteRoundTrip(OrderLinkPrefix, ItemLinkInfix, orderId, itemId);
  }

  /** Different items of different orders never share an href. */
  lemma {:induction false} HrefInjective(o1: int, i1: int, o2: int, i2: int)
    requires Href(o1, i1) == Href(o2, i2)
    ensures o1 == o2 && i1 == i2
  {
    HrefRoundTrip(o1, i1);
    HrefRoundTrip(o2, i2);
  }

  /** Every link of a listing leads to the order and the item of its row. */
  lemma {:induction false} ItemLinksLeadToRows(rows: seq<ItemRow>, orderId: int)
    ensures |ItemLinks(rows, orderId)| == |rows|
    ensures forall k :: 0 <= k < |rows| ==>
              ItemLinks(rows, orderId)[k].rel == ItemRel &&
              ParseHref(ItemLinks(rows, orderId)[k].href) == Some((orderId, rows[k].itemId))
  {
    forall k | 0 <= k < |rows|
      ensures ParseHref(ItemLinks(rows, orderId)[k].href) == Some((orderId, rows[k].itemId))
    {
      HrefRoundTrip(orderId, rows[k].itemId);
    }
  }

  // ---------------------------------------------------------------------
  // The statements behind the trace

  const Schema := "art_catalog"
  const ItemsTable := "order_items"

  /** The keyword arguments remove_item_from_order passes to
      delete_record_by_multikey. */
  function ItemKey(orderId: int, itemId: int): seq<Pair> {
    [("order_id", VInt(orderId)), ("item_id", VInt(itemId))]
  }

  /** A decimal literal holds no '='. */
  lemma {:induction false} IntHasNoEquals(i: int)
    ensures CountChar(IntToString(i), '=') == 0
  {
    var s := IntToString(i);
    assert forall k :: 0 <= k < |s| ==> s[k] != '=';
    AbsentCount(s, '=');
  }

  /** A DELETE by two integer key columns whose names hold no '='. */
  lemma {:induction false} TwoKeyDeleteIsConditional(schema: string, table: string, k1: string, v1: int, k2: string, v2: int)
    requires '=' !in schema && '=' !in table && '=' !in k1 && '=' !in k2
    ensures var head, sql := DeleteHead(schema, table), DeleteSql(schema, table, [(k1, VInt(v1)), (k2, VInt(v2))]);
      sql[..|head|] == head && CountChar(sql, '=') == 2
  {
    var keys := [(k1, VInt(v1)), (k2, VInt(v2))];
    IntHasNoEquals(v1);
    IntHasNoEquals(v2);
    AbsentCount(k1, '=');
    AbsentCount(k2, '=');
    AbsentCount(schema, '=');
    AbsentCount(table, '=');
    assert NoEntryHolds(keys, '=');
    DeleteIsConditional(schema, table, keys);
  }

  /** The DELETE behind each DeleteItemRows entry is conditional on both
      key columns: it starts with the items table's WHERE and holds
      exactly two `k = v` terms. */
  lemma {:induction false} ItemDeleteIsConditional(orderId: int, itemId: int)
    ensures var head, sql := DeleteHead(Schema, ItemsTable), DeleteSql(Schema, ItemsTable, ItemKey(orderId, itemId));
      sql[..|head|] == head && CountChar(sql, '=') == 2
  {
    TwoKeyDeleteIsConditional(Schema, ItemsTable, "order_id", orderId, "item_id", itemId);
  }

  // ---------------------------------------------------------------------
  // The resource

  class ArtCatalogOrdersResource {
    var orders: seq<OrderRow>
    var items: seq<ItemRow>
    /** The id the next order insert generates. */
    var nextOrderId: int
    /** The id the next item insert generates. */
    var nextRecordId: int
    /** Every statement that changed a table, oldest first. */
    ghost var trace: seq<Statement>

    ghost predicate Valid()
      reads this
    {
      OrderIdsBelow(orders, nextOrderId) && DistinctOrderIds(orders) &&
      RecordIdsBelow(items, nextRecordId) && DistinctItemKeys(items) &&
      ItemsHaveOrders(orders, items)
    }

    constructor ()
      ensures Valid()
      ensures orders == [] && items == [] && trace == []
      ensures nextOrderId == 1 && nextRecordId == 1
    {
      orders := [];
      items := [];
      nextOrderId := 1;
      nextRecordId := 1;
      trace := [];
    }

    /** _order_exists */
    function OrderExists(orderId: int): (r: bool)
      reads this
      ensures r <==> HasOrder(orders, orderId)
    {
      OrdersWithIdNonEmpty(orders, orderId);
      |OrdersWithId(orders, orderId)| > 0
    }

    /** retrieve_all_orders: every order row, each with the links of its items. */
    method RetrieveAllOrders() returns (r: seq<LinkedOrder>)
      ensures |r| == |orders|
      ensures forall k :: 0 <= k < |r| ==>
                r[k].order == orders[k] &&
                r[k].links == ItemLinks(ItemsOf(items, orders[k].orderId), orders[k].orderId)
    {
      var found := orders;
      r := [];
      var k := 0;
      while k < |found|
        invariant 0 <= k <= |found|
        invariant |r| == k
        invariant forall j :: 0 <= j < k ==>
                    r[j].order == found[j] &&
                    r[j].links == ItemLinks(ItemsOf(items, found[j].orderId), found[j].orderId)
      {
        var listing := RetrieveAllItemsInGivenOrder(found[k].orderId, true);
        r := r + [LinkedOrder(found[k], listing.links)];
        k := k + 1;
      }
    }

    /** retrieve_single_order: the first order row with that id and its
        links, or None. */
    method RetrieveSingleOrder(orderId: int) returns (r: Option<LinkedOrder>)
      ensures r.None? <==> !HasOrder(orders, orderId)
      ensures r.Some? ==>
                (exists k :: 0 <= k < |orders| && orders[k] == r.value.order && orders[k].orderId == orderId &&
                             forall j :: 0 <= j < k ==> orders[j].orderId != orderId) &&
                r.value.links == ItemLinks(ItemsOf(items, orderId), orderId)
    {
      var found := OrdersWithId(orders, orderId);
      OrdersWithIdNonEmpty(orders, orderId);
      if |found| > 0 {
        var order := found[0];
        FilterHead(orders, (x: OrderRow) => x.orderId == orderId);
        var listing := RetrieveAllItemsInGivenOrder(order.orderId, true);
        r := Some(LinkedOrder(order, listing.links));
      } else {
        r := None;
      }
    }

    /** add_new_order: inserts the row under a fresh id and returns that id. */
    method AddNewOrder(attrs: seq<Pair>) returns (r: int)
      requires Valid()
      modifies this
      ensures Valid()
      ensures r == old(nextOrderId) && !old(HasOrder(orders, r))
      ensures orders == old(orders) + [OrderRow(r, attrs)] && items == old(items)
      ensures nextOrderId == r + 1 && nextRecordId == old(nextRecordId)
      ensures trace == old(trace) + [InsertOrderRow(r)]
    {
      r := nextOrderId;
      AppendOrderKeepsInvariants(orders, items, OrderRow(r, attrs));
      orders := orders + [OrderRow(r, attrs)];
      nextOrderId := r + 1;
      trace := trace + [InsertOrderRow(r)];
    }

    /** remove_order_by_id: None for an absent order; otherwise the order's
        items are deleted one by one, then the order row, and the row count
        of that last delete is returned. */
    method RemoveOrderById(orderId: int) returns (r: Option<nat>)
      requires Valid()
      modifies this
      ensures Valid()
      ensures !old(HasOrder(orders, orderId)) ==>
                r == None && orders == old(orders) && items == old(items) && trace == old(trace)
      ensures old(HasOrder(orders, orderId)) ==>
                r == Some(1) &&
                orders == WithoutOrder(old(orders), orderId) &&
                items == WithoutOrderItems(old(items), orderId)
      ensures old(HasOrder(orders, orderId)) ==>
                trace == old(trace) + ItemDeletes(ItemsOf(old(items), orderId)) + [DeleteOrderRows(orderId)]
      ensures nextOrderId == old(nextOrderId) && nextRecordId == old(nextRecordId)
    {
      if !OrderExists(orderId) {
        return None;
      }
      var listing := RetrieveAllItemsInGivenOrder(orderId, false);
      var all := listing.rows;
      ItemsOfRemovable(items, orderId);
      CascadeKeepsInvariants(orders, items, orderId, nextOrderId);
      OneOrderPerId(orders, orderId);
      RemoveEachItem(orderId, all);
      var deleted := |OrdersWithId(orders, orderId)|;
      orders := WithoutOrder(orders, orderId);
      trace := trace + [DeleteOrderRows(orderId)];
      r := Some(deleted);
    }

    /** The loop of remove_order_by_id: remove_item_from_order for every
        row of `all`, in order. Each row is still present when its turn
        comes, so each call issues its DELETE. */
    method RemoveEachItem(orderId: int, all: seq<ItemRow>)
      requires Valid() && HasOrder(orders, orderId)
      requires forall k :: 0 <= k < |all| ==> all[k] in items && all[k].orderId == orderId
      requires DistinctItemKeys(all)
      modifies this
      ensures Valid()
      ensures items == WithoutKeys(old(items), all)
      ensures orders == old(orders)
      ensures nextOrderId == old(nextOrderId) && nextRecordId == old(nextRecordId)
      ensures trace == old(trace) + ItemDeletes(all)
    {
      WithoutNoKeys(items);
      var k := 0;
      while k < |all|
        invariant 0 <= k <= |all|
        invariant Valid()
        invariant items == WithoutKeys(old(items), all[..k])
        invariant orders == old(orders)
        invariant nextOrderId == old(nextOrderId) && nextRecordId == old(nextRecordId)
        invariant trace == old(trace) + ItemDeletes(all[..k])
      {
        StillPresent(old(items), all, k);
        var removed := RemoveItemFromOrder(all[k].orderId, all[k].itemId);
        WithoutKeysStep(old(items), all[..k], all[k]);
        TakeOneMore(all, k);
        TraceStep(old(trace), all[..k], all[k]);
        k := k + 1;
      }
      assert all[..k] == all;
    }

    /** add_item_to_order: None for an absent order; otherwise the old entry
        with the same key is removed and the new one inserted. */
    method AddItemToOrder(info: ItemInfo) returns (r: Option<AddedItem>)
      requires Valid()
      modifies this
      ensures Valid()
      ensures !old(HasOrder(orders, info.orderId)) ==>
                r == None && orders == old(orders) && items == old(items) &&
                nextRecordId == old(nextRecordId) && trace == old(trace)
      ensures old(HasOrder(orders, info.orderId)) ==>
                r == Some(AddedItem(info.orderId, info.itemId, old(nextRecordId))) &&
                items == ReplaceItem(old(items), info, old(nextRecordId)) &&
                orders == old(orders) && nextRecordId == old(nextRecordId) + 1 &&
                trace == old(trace) +
                         (if old(HasItem(items, info.orderId, info.itemId)) then [DeleteItemRows(info.orderId, info.itemId)] else []) +
                         [InsertItemRow(old(nextRecordId), info.orderId, info.itemId)]
      ensures nextOrderId == old(nextOrderId)
    {
      var removal := RemoveItemFromOrder(info.orderId, info.itemId);
      if removal == None {
        return None;
      }
      var recordId := nextRecordId;
      ReplaceItemKeepsInvariants(orders, old(items), info, recordId);
      items := items + [NewItemRow(info, recordId)];
      nextRecordId := recordId + 1;
      trace := trace + [InsertItemRow(recordId, info.orderId, info.itemId)];
      r := Some(AddedItem(info.orderId, info.itemId, recordId));
    }

    /** retrieve_all_items_in_given_order: in link mode the links of the
        order's items, without checking that the order exists; otherwise
        None for an absent order, else the order's item rows. */
    method RetrieveAllItemsInGivenOrder(orderId: int, href: bool) returns (r: ItemListing)
      ensures href ==> r == Links(ItemLinks(ItemsOf(items, orderId), orderId))
      ensures !href && !HasOrder(orders, orderId) ==> r == ListingOrderMissing
      ensures !href && HasOrder(orders, orderId) ==> r == Rows(ItemsOf(items, orderId))
    {
      if href {
        var found := ItemsOf(items, orderId);
        var links: seq<Link> := [];
        var k := 0;
        while k < |found|
          invariant 0 <= k <= |found|
          invariant links == ItemLinks(found[..k], orderId)
        {
          links := links + [Link(Href(orderId, found[k].itemId), ItemRel)];
          ItemLinksSnoc(found[..k], found[k], orderId);
          TakeOneMore(found, k);
          k := k + 1;
        }
        assert found[..k] == found;
        r := Links(links);
      } else {
        if !OrderExists(orderId) {
          return ListingOrderMissing;
        }
        r := Rows(ItemsOf(items, orderId));
      }
    }

    /** retrieve_single_item_in_given_order: None for an absent order, False
        for an absent item, else the first row with that key. */
    method RetrieveSingleItemInGivenOrder(orderId: int, itemId: int) returns (r: ItemLookup)
      ensures r.OrderMissing? <==> !HasOrder(orders, orderId)
      ensures r.ItemMissing? <==> HasOrder(orders, orderId) && !HasItem(items, orderId, itemId)
      ensures r.Found? ==>
                exists k :: 0 <= k < |items| && items[k] == r.row && SameKey(items[k], orderId, itemId) &&
                            forall j :: 0 <= j < k ==> !SameKey(items[j], orderId, itemId)
    {
      if !OrderExists(orderId) {
        return OrderMissing;
      }
      var found := ItemsWithKey(items, orderId, itemId);
      ItemsWithKeyNonEmpty(items, orderId, itemId);
      if |found| == 0 {
        r := ItemMissing;
      } else {
        FilterHead(items, (x: ItemRow) => SameKey(x, orderId, itemId));
        r := Found(found[0]);
      }
    }

    /** remove_item_from_order: None for an absent order; True after
        deleting an existing entry; False, with nothing changed, otherwise. */
    method RemoveItemFromOrder(orderId: int, itemId: int) returns (r: Option<bool>)
      requires Valid()
      modifies this
      ensures Valid()
      ensures !old(HasOrder(orders, orderId)) ==> r == None
      ensures old(HasOrder(orders, orderId)) ==>
                r == Some(old(HasItem(items, orderId, itemId))) &&
                items == WithoutItem(old(items), orderId, itemId) &&
                !HasItem(items, orderId, itemId)
      ensures r == Some(true) ==>
                |items| == |old(items)| - 1 && trace == old(trace) + [DeleteItemRows(orderId, itemId)]
      ensures r != Some(true) ==> items == old(items) && trace == old(trace)
      ensures orders == old(orders)
      ensures nextOrderId == old(nextOrderId) && nextRecordId == old(nextRecordId)
    {
      if !OrderExists(orderId) {
        return None;
      }
      var given := RetrieveSingleItemInGivenOrder(orderId, itemId);
      DeleteItemKeepsInvariants(orders, items, nextRecordId, orderId, itemId);
      if given.Found? {
        items := WithoutItem(items, orderId, itemId);
        trace := trace + [DeleteItemRows(orderId, itemId)];
        r := Some(true);
      } else {
        r := Some(false);
      }
    }
  }
}
