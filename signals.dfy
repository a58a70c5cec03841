/** The notification rules of core/signals.py. Each handler is a function
    from the saved instance (and the stored state it reads) to the
    notifications it creates; the tables below append them to a log as the
    save happens. The back-in-stock handler is a loop that also marks each
    subscription it serves. */
module Signals {
  import opened Wrappers
  import opened Json
  import opened Models

  datatype NotificationType = OrderCreated | OrderStatusChange | LowStock | StockNotification

  /** An AppNotification row: its type, the user it is addressed to (None
      for the global admin feed), its title and its data payload. */
  datatype Notification = Notification(
    kind: NotificationType,
    recipient: Option<UserId>,
    title: string,
    data: seq<(string, Json)>)

  function Id(n: nat): Json { Num(n as real) }

  // ---------------------------------------------------------------------
  // Orders
  // ---------------------------------------------------------------------

  /** order_created_notification, for a newly created order: one note to
      the customer and one to the global feed. */
  function OrderCreatedNotes(o: Order): (r: seq<Notification>)
    ensures |r| == 2
    ensures r[0].kind == OrderCreated && r[1].kind == OrderCreated
    ensures r[0].recipient == Some(o.user) && r[1].recipient == None
    ensures Lookup(r[0].data, "order_id") == Some(Id(o.id)) && Lookup(r[1].data, "order_id") == Some(Id(o.id))
  {
    [ Notification(OrderCreated, Some(o.user), "Your order has been placed", [("order_id", Id(o.id))]),
      Notification(OrderCreated, None, "New order created", [("order_id", Id(o.id)), ("user_id", Id(o.user))]) ]
  }

  /** order_status_change_notification, run before an order is saved.
      `stored` is the row already in the table under the instance's key;
      None when the instance has no key yet or the row is missing, and then
      the handler returns at once. */
  function StatusChangeNotes(stored: Option<Order>, instance: Order): (r: seq<Notification>)
    ensures |r| == 2 <==> stored.Some? && stored.value.status != instance.status
    ensures |r| == 0 <==> !(stored.Some? && stored.value.status != instance.status)
    ensures |r| == 2 ==> r[0].recipient == Some(instance.user) && r[1].recipient == None
    ensures forall i :: 0 <= i < |r| ==> r[i].kind == OrderStatusChange
    ensures forall i :: 0 <= i < |r| ==>
      Lookup(r[i].data, "old_status") == Some(Str(stored.value.status)) &&
      Lookup(r[i].data, "new_status") == Some(Str(instance.status))
  {
    if stored.None? || stored.value.status == instance.status then []
    else
      var old_ := stored.value.status;
      var payload := [("order_id", Id(instance.id)), ("old_status", Str(old_)), ("new_status", Str(instance.status))];
      var global := [("order_id", Id(instance.id)), ("old_status", Str(old_)), ("new_status", Str(instance.status)),
                     ("user_id", Id(instance.user))];
      assert Lookup(payload, "old_status") == Some(Str(old_)) && Lookup(global, "old_status") == Some(Str(old_));
      assert Lookup(payload[2..], "new_status") == Some(Str(instance.status));
      assert Lookup(global[2..], "new_status") == Some(Str(instance.status));
      assert Lookup(payload[1..], "new_status") == Lookup(payload[1..][1..], "new_status");
      assert Lookup(global[1..], "new_status") == Lookup(global[1..][1..], "new_status");
      [ Notification(OrderStatusChange, Some(instance.user), "Order Status Updated", payload),
        Notification(OrderStatusChange, None, "Order Status Changed", global) ]
  }

  // ---------------------------------------------------------------------
  // Products
  // ---------------------------------------------------------------------

  /** LOW_STOCK_THRESHOLD */
  const LowStockThreshold: nat := 5

  /** low_stock_notification: a global alert on every save below the
      threshold, whether or not the stock changed. */
  function LowStockNotes(p: Product): (r: seq<Notification>)
    ensures |r| == (if p.stock < LowStockThreshold then 1 else 0)
    ensures forall i :: 0 <= i < |r| ==> r[i].kind == LowStock && r[i].recipient == None
  {
    if p.stock < LowStockThreshold then
      [Notification(LowStock, None, "Low Stock Alert",
        [("product_id", Id(p.id)), ("product_name", Str(p.name)), ("stock", Id(p.stock))])]
    else []
  }

  /** A StockNotification row as the signal and the views use it: the
      subscriber (a user, or only an e-mail address), the product and
      whether it has been served. */
  datatype Subscription = Subscription(user: Option<UserId>, email: Option<string>, product: ProductId, isNotified: bool)

  /** The filter product=instance, is_notified=False. */
  predicate Pending(p: ProductId, s: Subscription) {
    s.product == p && !s.isNotified
  }

  function BackInStockNote(p: Product, user: Option<UserId>): Notification {
    Notification(StockNotification, user, "Back in Stock",
      [("product_id", Id(p.id)), ("product_name", Str(p.name)), ("stock", Id(p.stock))])
  }

  /** One note per pending subscription of p, in table order. */
  function NotesFor(p: Product, rows: seq<Subscription>): (r: seq<Notification>)
    ensures |r| <= |rows|
    ensures forall i :: 0 <= i < |r| ==> r[i].kind == StockNotification
  {
    if rows == [] then []
    else
      var last := rows[|rows| - 1];
      NotesFor(p, rows[..|rows| - 1]) + (if Pending(p.id, last) then [BackInStockNote(p, last.user)] else [])
  }

  /** The notes stock_back_in_notification creates: none unless the saved
      product has stock. */
  function BackInStockNotes(p: Product, rows: seq<Subscription>): (r: seq<Notification>)
    ensures p.stock == 0 ==> r == []
  {
    if p.stock > 0 then NotesFor(p, rows) else []
  }

  function Served(p: Product, s: Subscription): (t: Subscription)
    ensures t.user == s.user && t.email == s.email && t.product == s.product
    ensures t.isNotified <==> s.isNotified || (p.stock > 0 && s.product == p.id)
  {
    if p.stock > 0 && Pending(p.id, s) then s.(isNotified := true) else s
  }

  /** The subscription table after the handler: every pending subscription
      of p is marked, and nothing else changes. */
  function MarkNotified(p: Product, rows: seq<Subscription>): (r: seq<Subscription>)
    ensures |r| == |rows|
    ensures forall i :: 0 <= i < |rows| ==> r[i] == Served(p, rows[i])
  {
    seq(|rows|, i requires 0 <= i < |rows| => Served(p, rows[i]))
  }

  /** The number of pending subscriptions of p. */
  function PendingCount(p: ProductId, rows: seq<Subscription>): nat {
    if rows == [] then 0
    else PendingCount(p, rows[..|rows| - 1]) + (if Pending(p, rows[|rows| - 1]) then 1 else 0)
  }

  /** Each pending subscription gets exactly one note. */
  lemma {:induction false} NotesForCount(p: Product, rows: seq<Subscription>)
    ensures |NotesFor(p, rows)| == PendingCount(p.id, rows)
  {
    if rows != [] {
      NotesForCount(p, rows[..|rows| - 1]);
    }
  }

  /** The rows the handler's filter product=p, is_notified=False returns,
      in table order. */
  function PendingRows(p: ProductId, rows: seq<Subscription>): (r: seq<Subscription>)
    ensures forall s :: s in r <==> s in rows && Pending(p, s)
  {
    if rows == [] then []
    else (if Pending(p, rows[0]) then [rows[0]] else []) + PendingRows(p, rows[1..])
  }

  lemma {:induction false} PendingRowsSnoc(p: ProductId, rows: seq<Subscription>, s: Subscription)
    ensures PendingRows(p, rows + [s]) == PendingRows(p, rows) + (if Pending(p, s) then [s] else [])
  {
    if rows == [] {
      assert [] + [s] == [s];
      assert [s][1..] == [];
    } else {
      assert (rows + [s])[0] == rows[0];
      assert (rows + [s])[1..] == rows[1..] + [s];
      PendingRowsSnoc(p, rows[1..], s);
    }
  }

  /** The i-th note goes to the user of the i-th pending subscription. */
  lemma {:induction false} NotesForRecipients(p: Product, rows: seq<Subscription>)
    ensures var pending := PendingRows(p.id, rows);
      |NotesFor(p, rows)| == |pending| &&
      forall i :: 0 <= i < |pending| ==> NotesFor(p, rows)[i] == BackInStockNote(p, pending[i].user)
  {
    if rows != [] {
      var init, last := rows[..|rows| - 1], rows[|rows| - 1];
      assert rows == init + [last];
      NotesForRecipients(p, init);
      PendingRowsSnoc(p.id, init, last);
    }
  }

  /** Every pending subscription of p gets its note, addressed to its user,
      and every note comes from a pending subscription of p. */
  lemma NotesForPerSubscription(p: Product, rows: seq<Subscription>)
    ensures forall s :: s in rows && Pending(p.id, s) ==> BackInStockNote(p, s.user) in NotesFor(p, rows)
    ensures forall n :: n in NotesFor(p, rows) ==>
      exists s :: s in rows && Pending(p.id, s) && n == BackInStockNote(p, s.user)
  {
    NotesForRecipients(p, rows);
    var pending, notes := PendingRows(p.id, rows), NotesFor(p, rows);
    forall s | s in rows && Pending(p.id, s) ensures BackInStockNote(p, s.user) in notes {
      var i :| 0 <= i < |pending| && pending[i] == s;
      assert notes[i] == BackInStockNote(p, s.user);
    }
    forall n | n in notes ensures exists s :: s in rows && Pending(p.id, s) && n == BackInStockNote(p, s.user) {
      var i :| 0 <= i < |notes| && notes[i] == n;
      assert pending[i] in pending;
    }
  }

  /** The table is kept newest first, the query's order: a subscription
      put in front is notified before all the older ones. */
  lemma {:induction false} NotesForCons(p: Product, s: Subscription, rows: seq<Subscription>)
    ensures NotesFor(p, [s] + rows) ==
      (if Pending(p.id, s) then [BackInStockNote(p, s.user)] else []) + NotesFor(p, rows)
  {
    if rows == [] {
      assert [s] + rows == [s];
      assert [s][..0] == [];
    } else {
      var init, last := rows[..|rows| - 1], rows[|rows| - 1];
      assert ([s] + rows)[..|rows|] == [s] + init;
      assert ([s] + rows)[|rows|] == last;
      NotesForCons(p, s, init);
    }
  }

  lemma {:induction false} NoneAfterMarking(p: Product, rows: seq<Subscription>)
    requires p.stock > 0
    ensures NotesFor(p, MarkNotified(p, rows)) == []
  {
    if rows != [] {
      var m := MarkNotified(p, rows);
      assert m[..|m| - 1] == MarkNotified(p, rows[..|rows| - 1]);
      NoneAfterMarking(p, rows[..|rows| - 1]);
    }
  }

  /** At most once: a second save of a product in stock, with the table as
      the first save left it, notifies nobody. */
  lemma BackInStockAtMostOnce(p: Product, rows: seq<Subscription>)
    ensures BackInStockNotes(p, MarkNotified(p, rows)) == []
  {
    if p.stock > 0 {
      NoneAfterMarking(p, rows);
    }
  }

  /** The handler reads only the stock, not is_active: a product switched
      off in the catalogue still notifies its subscribers. */
  lemma {:induction false} BackInStockIgnoresActive(p: Product, rows: seq<Subscription>)
    ensures BackInStockNotes(p.(isActive := false), rows) == BackInStockNotes(p, rows)
    ensures MarkNotified(p.(isActive := false), rows) == MarkNotified(p, rows)
  {
    if p.stock > 0 {
      NotesForIgnoresActive(p, rows);
    }
  }

  /** The handler tests the stock alone, not Product.is_in_stock: every
      product in stock notifies, and so does an inactive one with stock,
      which is not in stock. */
  lemma BackInStockIgnoresInStock(p: Product, rows: seq<Subscription>)
    ensures IsInStock(p) ==> BackInStockNotes(p, rows) == NotesFor(p, rows)
    ensures BackInStockNotes(p, rows) != [] ==> IsInStock(p.(isActive := true))
    ensures p.stock > 0 && !p.isActive ==> !IsInStock(p) && BackInStockNotes(p, rows) == NotesFor(p, rows)
  {
  }

  lemma {:induction false} NotesForIgnoresActive(p: Product, rows: seq<Subscription>)
    ensures NotesFor(p.(isActive := false), rows) == NotesFor(p, rows)
  {
    if rows != [] {
      NotesForIgnoresActive(p, rows[..|rows| - 1]);
    }
  }

  /** The notification log every handler appends to. */
  class NotificationLog {
    var sent: seq<Notification>

    constructor()
      ensures sent == []
    {
      sent := [];
    }

    method Append(notes: seq<Notification>)
      modifies this
      ensures sent == old(sent) + notes
    {
      sent := sent + notes;
    }
  }

  /** The StockNotification table, newest subscription first: the order
      of the model's `-created_at` ordering, in which the handler's query
      returns it. */
  class SubscriptionTable {
    var rows: seq<Subscription>

    constructor()
      ensures rows == []
    {
      rows := [];
    }

    /** stock_back_in_notification */
    method NotifyBackInStock(p: Product, log: NotificationLog)
      modifies this, log
      ensures rows == MarkNotified(p, old(rows))
      ensures log.sent == old(log.sent) + BackInStockNotes(p, old(rows))
    {
      if p.stock > 0 {
        var i := 0;
        while i < |rows|
          invariant 0 <= i <= |rows| == |old(rows)|
          invariant forall j :: 0 <= j < i ==> rows[j] == Served(p, old(rows)[j])
          invariant forall j :: i <= j < |rows| ==> rows[j] == old(rows)[j]
          invariant log.sent == old(log.sent) + NotesFor(p, old(rows)[..i])
        {
          var sub := rows[i];
          assert old(rows)[..i + 1][..i] == old(rows)[..i];
          if Pending(p.id, sub) {
            log.Append([BackInStockNote(p, sub.user)]);
            rows := rows[i := sub.(isNotified := true)];
          }
          i := i + 1;
        }
        assert old(rows)[..i] == old(rows);
      }
    }
  }

  /** The product table. Saving a product runs the two post-save handlers
      in the order they are registered: the low-stock alert, then the
      back-in-stock notes. */
  class ProductTable {
    var rows: map<ProductId, Product>

    constructor()
      ensures rows == map[]
    {
      rows := map[];
    }

    method Save(p: Product, subs: SubscriptionTable, log: NotificationLog)
      modifies this, subs, log
      ensures rows == old(rows)[p.id := p]
      ensures subs.rows == MarkNotified(p, old(subs.rows))
      ensures log.sent == old(log.sent) + LowStockNotes(p) + BackInStockNotes(p, old(subs.rows))
    {
      rows := rows[p.id := p];
      log.Append(LowStockNotes(p));
      subs.NotifyBackInStock(p, log);
    }
  }

  /** Every order is stored under its own id. */
  predicate Keyed(rows: map<OrderId, Order>) {
    forall k :: k in rows ==> rows[k].id == k
  }

  /** The order table. Saving runs the pre-save status-change handler
      against the stored row, and the post-save creation handler when the
      save inserted a new row. */
  class OrderTable {
    var rows: map<OrderId, Order>

    constructor()
      ensures rows == map[]
    {
      rows := map[];
    }

    function Stored(id: OrderId): Option<Order>
      reads this
    {
      if id in rows then Some(rows[id]) else None
    }

    method Save(o: Order, log: NotificationLog)
      modifies this, log
      ensures rows == old(rows)[o.id := o]
      ensures Keyed(old(rows)) ==> Keyed(rows)
      ensures log.sent == old(log.sent) + StatusChangeNotes(old(Stored(o.id)), o)
                          + (if o.id in old(rows) then [] else OrderCreatedNotes(o))
    {
      var stored := Stored(o.id);
      log.Append(StatusChangeNotes(stored, o));
      rows := rows[o.id := o];
      if stored.None? {
        log.Append(OrderCreatedNotes(o));
      }
    }
  }
}
