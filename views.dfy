/** The decision logic of core/views.py: the related-products fill, the
    admin grant and revoke actions, the order list and status update, and
    the contact, subscribe and notify endpoints. Query sets are sequences
    (in the query's order) or maps over the tables; mail delivery is a
    boolean outcome supplied by the caller. */
module Views {
  import opened Wrappers
  import opened Models
  import opened Signals
  import opened Permissions
  import Form

  /** The status code and message of a view's answer. */
  datatype Response = Response(status: nat, message: string)

  /** An authenticated requester: its user id and is_staff flag. */
  datatype Caller = Caller(id: UserId, isStaff: bool)

  /** What the permission classes see of a caller (None: anonymous). */
  function AsRequestUser(c: Option<Caller>): (u: Option<RequestUser>)
    ensures IsAuthenticated(u) <==> c.Some?
    ensures IsStaff(u) <==> c.Some? && c.value.isStaff
  {
    match c
    case None => Some(RequestUser(false, false))
    case Some(x) => Some(RequestUser(true, x.isStaff))
  }

  // ---------------------------------------------------------------------
  // Related products
  // ---------------------------------------------------------------------

  function Ids(s: seq<Product>): set<ProductId> {
    set q | q in s :: q.id
  }

  predicate DistinctIds(s: seq<Product>) {
    forall i, j :: 0 <= i < j < |s| ==> s[i].id != s[j].id
  }

  /** queryset.filter(...): the rows that pass, in their order. */
  function Filter(ps: seq<Product>, keep: Product -> bool): (r: seq<Product>)
    ensures |r| <= |ps|
    ensures forall q :: q in r ==> q in ps && keep(q)
    ensures forall q :: q in ps && keep(q) ==> q in r
    ensures Ids(r) <= Ids(ps)
    ensures DistinctIds(ps) ==> DistinctIds(r)
  {
    if ps == [] then []
    else
      var rest := Filter(ps[1..], keep);
      assert Ids(ps) == {ps[0].id} + Ids(ps[1..]) by {
        assert forall q :: q in ps <==> q == ps[0] || q in ps[1..];
      }
      if keep(ps[0]) then
        assert DistinctIds(ps) ==> ps[0].id !in Ids(ps[1..]);
        assert Ids([ps[0]] + rest) == {ps[0].id} + Ids(rest) by {
          assert forall q :: q in [ps[0]] + rest <==> q == ps[0] || q in rest;
        }
        assert DistinctIds(ps) ==> DistinctIds([ps[0]] + rest) by {
          if DistinctIds(ps) {
            forall i, j | 0 <= i < j < |[ps[0]] + rest|
              ensures ([ps[0]] + rest)[i].id != ([ps[0]] + rest)[j].id
            {
              if i == 0 {
                assert ([ps[0]] + rest)[j] in rest;
              }
            }
          }
        }
        [ps[0]] + rest
      else rest
  }

  /** queryset[:n] */
  function Take(s: seq<Product>, n: nat): (r: seq<Product>)
    ensures |r| == if n <= |s| then n else |s|
    ensures r == s[..|r|]
  {
    if n <= |s| then s[..n] else s
  }

  lemma TakeKeeps(s: seq<Product>, n: nat)
    ensures Ids(Take(s, n)) <= Ids(s)
    ensures forall q :: q in Take(s, n) ==> q in s
    ensures DistinctIds(s) ==> DistinctIds(Take(s, n))
  {
  }

  /** Two id-distinct lists with disjoint ids concatenate to an id-distinct
      list whose halves are the two lists. */
  lemma AppendDistinct(a: seq<Product>, b: seq<Product>)
    requires DistinctIds(a) && DistinctIds(b) && Ids(a) !! Ids(b)
    ensures DistinctIds(a + b)
    ensures (a + b)[..|a|] == a && (a + b)[|a|..] == b
  {
    var ab := a + b;
    forall i, j | 0 <= i < j < |ab| ensures ab[i].id != ab[j].id {
      if i < |a| && j >= |a| {
        assert ab[i] == a[i] && ab[j] == b[j - |a|];
        assert ab[i].id in Ids(a) && ab[j].id in Ids(b);
      } else if i >= |a| {
        assert ab[i] == b[i - |a|] && ab[j] == b[j - |a|];
      }
    }
  }

  predicate SharesCategory(q: Product, p: Product) { q.categories * p.categories != {} }
  predicate SharesTag(q: Product, p: Product) { q.tagIds * p.tagIds != {} }

  /** Step 1: the products of the view's query set sharing a category with
      p, other than p. */
  function CategoryMatches(visible: seq<Product>, p: Product): (r: seq<Product>)
    ensures forall q :: q in r <==> q in visible && SharesCategory(q, p) && q.id != p.id
    ensures DistinctIds(visible) ==> DistinctIds(r)
  {
    Filter(visible, q => SharesCategory(q, p) && q.id != p.id)
  }

  /** Step 2: the products of the whole catalogue sharing a tag with p,
      except the excluded ids. */
  function TagMatches(all: seq<Product>, p: Product, exclude: set<ProductId>): (r: seq<Product>)
    ensures forall q :: q in r <==> q in all && SharesTag(q, p) && q.id !in exclude
    ensures Ids(r) !! exclude
    ensures DistinctIds(all) ==> DistinctIds(r)
  {
    Filter(all, q => SharesTag(q, p) && q.id !in exclude)
  }

  /** ProductViewSet.related_products: up to five products sharing a
      category with p (from the view's query set), topped up with products
      sharing a tag (from the whole catalogue) when there are fewer than
      five and p has tags. */
  method RelatedProducts(visible: seq<Product>, all: seq<Product>, p: Product) returns (related: seq<Product>)
    requires DistinctIds(visible) && DistinctIds(all)
    ensures |related| <= 5
    ensures forall q :: q in related ==> q.id != p.id
    ensures DistinctIds(related)
    ensures var cm := Take(CategoryMatches(visible, p), 5);
      |cm| <= |related| && related[..|cm|] == cm &&
      (|cm| < 5 && p.tagIds != {} ==> related[|cm|..] == Take(TagMatches(all, p, Ids(cm) + {p.id}), 5 - |cm|)) &&
      (!(|cm| < 5 && p.tagIds != {}) ==> related == cm)
    ensures forall q :: q in related ==> (q in visible && SharesCategory(q, p)) || (q in all && SharesTag(q, p))
    ensures |related| < 5 ==> forall q :: q in visible && SharesCategory(q, p) && q.id != p.id ==> q in related
  {
    var matches := CategoryMatches(visible, p);
    related := Take(matches, 5);
    TakeKeeps(matches, 5);
    var relatedIds := Ids(related);
    assert p.id !in relatedIds;
    if |related| < 5 && p.tagIds != {} {
      var tagRelated := TagMatches(all, p, relatedIds + {p.id});
      var needed := 5 - |related|;
      var extra := Take(tagRelated, needed);
      TakeKeeps(tagRelated, needed);
      assert Ids(extra) !! relatedIds;
      var joined := related + extra;
      AppendDistinct(related, extra);
      related := joined;
    }
  }

  // ---------------------------------------------------------------------
  // UserAdminViewSet.make_admin / revoke_admin
  // ---------------------------------------------------------------------

  /** The table with one user's is_staff set; nothing else moves. */
  function SetStaff(rows: map<UserId, User>, id: UserId, staff: bool): (r: map<UserId, User>)
    requires id in rows
    ensures r.Keys == rows.Keys
    ensures r[id].isStaff == staff
    ensures r[id] == rows[id].(isStaff := staff)
    ensures forall k :: k in rows && k != id ==> r[k] == rows[k]
  {
    rows[id := rows[id].(isStaff := staff)]
  }

  /** Granting or revoking twice is granting or revoking once. */
  lemma SetStaffIdempotent(rows: map<UserId, User>, id: UserId, staff: bool)
    requires id in rows
    ensures SetStaff(SetStaff(rows, id, staff), id, staff) == SetStaff(rows, id, staff)
  {
  }

  /** Flags never touch the unique columns. */
  lemma SetStaffKeepsUnique(rows: map<UserId, User>, id: UserId, staff: bool)
    requires id in rows && UniqueColumns(rows)
    ensures UniqueColumns(SetStaff(rows, id, staff))
  {
    var r := SetStaff(rows, id, staff);
    forall i, j | i in r && j in r && i != j
      ensures r[i].username != r[j].username && r[i].email != r[j].email
    {
      assert r[i].username == rows[i].username && r[i].email == rows[i].email;
      assert r[j].username == rows[j].username && r[j].email == rows[j].email;
    }
  }

  /** The view set's permission as written is RoleBasedSafeWritePermission,
      which lets any authenticated user POST: an ordinary customer may call
      make-admin on their own account and leave as staff. */
  lemma SelfPromotionAsWritten(rows: map<UserId, User>, me: UserId)
    requires me in rows && !rows[me].isStaff
    ensures RoleBasedSafeWrite("POST", AsRequestUser(Some(Caller(me, false))))
    ensures SetStaff(rows, me, true)[me].isStaff
  {
  }

  /** The gate the user-administration actions evidently need: staff only,
      for every method. */
  predicate UserAdminAllowed(caller: Option<Caller>) {
    caller.Some? && caller.value.isStaff
  }

  /** The staff-only gate refuses exactly the callers the written one let
      promote themselves, and agrees with it for staff. */
  lemma UserAdminAllowedNarrows(caller: Option<Caller>)
    ensures UserAdminAllowed(caller) ==> RoleBasedSafeWrite("POST", AsRequestUser(caller))
    ensures !UserAdminAllowed(caller) ==> !IsStaff(AsRequestUser(caller))
  {
  }

  /** make_admin: 403 unless the gate admits the caller, 404 for a missing
      or unknown user_id, otherwise is_staff becomes true. */
  method MakeAdmin(users: UserTable, caller: Option<Caller>, target: Option<UserId>) returns (resp: Response)
    modifies users`rows
    ensures !UserAdminAllowed(caller) ==> resp.status == 403 && users.rows == old(users.rows)
    ensures UserAdminAllowed(caller) && (target.None? || target.value !in old(users.rows)) ==>
      resp.status == 404 && users.rows == old(users.rows)
    ensures UserAdminAllowed(caller) && target.Some? && target.value in old(users.rows) ==>
      resp == Response(200, "User " + old(users.rows)[target.value].username + " is now an admin.") &&
      users.rows == SetStaff(old(users.rows), target.value, true)
  {
    if !UserAdminAllowed(caller) {
      return Response(403, "You do not have permission to perform this action.");
    }
    if target.None? || target.value !in users.rows {
      return Response(404, "Not found.");
    }
    var user := users.rows[target.value];
    users.rows := users.rows[target.value := user.(isStaff := true)];
    resp := Response(200, "User " + user.username + " is now an admin.");
  }

  /** revoke_admin: as make_admin, except that a caller naming themselves
      gets 400 and keeps their rights. */
  method RevokeAdmin(users: UserTable, caller: Option<Caller>, target: Option<UserId>) returns (resp: Response)
    modifies users`rows
    ensures !UserAdminAllowed(caller) ==> resp.status == 403 && users.rows == old(users.rows)
    ensures UserAdminAllowed(caller) && (target.None? || target.value !in old(users.rows)) ==>
      resp.status == 404 && users.rows == old(users.rows)
    ensures UserAdminAllowed(caller) && target.Some? && target.value in old(users.rows) && target.value == caller.value.id ==>
      resp == Response(400, "You cannot revoke your own admin access.") && users.rows == old(users.rows)
    ensures UserAdminAllowed(caller) && target.Some? && target.value in old(users.rows) && target.value != caller.value.id ==>
      resp == Response(200, "Admin rights revoked for " + old(users.rows)[target.value].username + ".") &&
      users.rows == SetStaff(old(users.rows), target.value, false)
  {
    if !UserAdminAllowed(caller) {
      return Response(403, "You do not have permission to perform this action.");
    }
    if target.None? || target.value !in users.rows {
      return Response(404, "Not found.");
    }
    var user := users.rows[target.value];
    if target.value == caller.value.id {
      return Response(400, "You cannot revoke your own admin access.");
    }
    users.rows := users.rows[target.value := user.(isStaff := false)];
    resp := Response(200, "Admin rights revoked for " + user.username + ".");
  }

  // ---------------------------------------------------------------------
  // OrderViewSet
  // ---------------------------------------------------------------------

  /** OrderViewSet.get_queryset: staff see every order, anyone else only
      their own. */
  function VisibleOrders(rows: map<OrderId, Order>, viewer: Caller): (r: map<OrderId, Order>)
    ensures forall id :: id in r <==> id in rows && (viewer.isStaff || rows[id].user == viewer.id)
    ensures forall id :: id in r ==> r[id] == rows[id]
  {
    if viewer.isStaff then rows
    else map id | id in rows && rows[id].user == viewer.id :: rows[id]
  }

  /** A customer sees a subset of what staff see, and never another
      customer's order. */
  lemma VisibleOrdersNested(rows: map<OrderId, Order>, id: UserId)
    ensures VisibleOrders(rows, Caller(id, false)).Keys <= VisibleOrders(rows, Caller(id, true)).Keys
    ensures forall k :: k in VisibleOrders(rows, Caller(id, false)) ==> VisibleOrders(rows, Caller(id, false))[k].user == id
  {
  }

  /** update_status (PATCH, IsAuthenticated and IsAdminOrReadOnly): 403
      for a non-staff caller, 404 for an order outside the caller's query
      set, 400 for a missing or empty status; otherwise the status is
      stored as given (it is not checked against the choices) and the save
      runs the status-change handler. */
  method UpdateStatus(orders: OrderTable, log: NotificationLog, caller: Option<Caller>, id: OrderId, status: Form.Field)
    returns (resp: Response)
    requires Keyed(orders.rows)
    modifies orders, log
    ensures !(IsAuthenticated(AsRequestUser(caller)) && IsAdminOrReadOnly("PATCH", AsRequestUser(caller))) ==>
      resp.status == 403 && orders.rows == old(orders.rows) && log.sent == old(log.sent)
    ensures caller.Some? && caller.value.isStaff && id !in VisibleOrders(old(orders.rows), caller.value) ==>
      resp.status == 404 && orders.rows == old(orders.rows) && log.sent == old(log.sent)
    ensures caller.Some? && caller.value.isStaff && id in old(orders.rows) && !Form.Truthy(status) ==>
      resp == Response(400, "Status is required") && orders.rows == old(orders.rows) && log.sent == old(log.sent)
    ensures caller.Some? && caller.value.isStaff && id in old(orders.rows) && Form.Truthy(status) ==>
      var updated := old(orders.rows)[id].(status := status.value);
      resp.status == 200 && orders.rows == old(orders.rows)[id := updated] &&
      log.sent == old(log.sent) + StatusChangeNotes(Some(old(orders.rows)[id]), updated)
    ensures Keyed(orders.rows)
  {
    if !(IsAuthenticated(AsRequestUser(caller)) && IsAdminOrReadOnly("PATCH", AsRequestUser(caller))) {
      return Response(403, "You do not have permission to perform this action.");
    }
    if id !in VisibleOrders(orders.rows, caller.value) {
      return Response(404, "Not found.");
    }
    var order := orders.rows[id];
    if !Form.Truthy(status) {
      return Response(400, "Status is required");
    }
    order := order.(status := status.value);
    orders.Save(order, log);
    resp := Response(200, "");
  }

  // ---------------------------------------------------------------------
  // ContactView, StockNotificationSubscribeView, StockNotificationNotifyView
  // ---------------------------------------------------------------------

  /** The checks ContactView makes before sending. */
  predicate ValidContact(name: Form.Field, email: Form.Field, subject: Form.Field, message: Form.Field) {
    Form.Truthy(name) && Form.Truthy(email) && Form.Truthy(subject) && Form.Truthy(message) && '@' in email.value
  }

  /** ContactView.post. A failed delivery is still answered with 200. */
  function Contact(name: Form.Field, email: Form.Field, subject: Form.Field, message: Form.Field, delivered: bool): (r: Response)
    ensures r.status == 400 <==> !ValidContact(name, email, subject, message)
    ensures r.status == 200 <==> ValidContact(name, email, subject, message)
    ensures r.status == 200 ==> (r.message == "Thank you! Your message has been sent successfully." <==> delivered)
    ensures !(Form.Truthy(name) && Form.Truthy(email) && Form.Truthy(subject) && Form.Truthy(message)) ==>
      r.message == "Missing required fields."
  {
    if !(Form.Truthy(name) && Form.Truthy(email) && Form.Truthy(subject) && Form.Truthy(message)) then
      Response(400, "Missing required fields.")
    else if '@' !in email.value then Response(400, "Invalid email address")
    else if delivered then Response(200, "Thank you! Your message has been sent successfully.")
    else Response(200, "Failed to send your message.")
  }

  /** Python truthiness of a numeric id read from the body: absent and 0
      are false. */
  predicate TruthyId(v: Option<nat>) { v.Some? && v.value != 0 }

  /** StockNotificationSubscribeView.post: 400 unless both fields are given
      and the e-mail holds an '@'; a product id that names no product
      breaks the foreign key (500); otherwise an e-mail-only subscription
      is added as the newest row, at the front of the table. */
  method Subscribe(subs: SubscriptionTable, products: set<ProductId>, email: Form.Field, productId: Option<nat>)
    returns (resp: Response)
    modifies subs
    ensures !(Form.Truthy(email) && TruthyId(productId)) ==>
      resp == Response(400, "Missing required fields") && subs.rows == old(subs.rows)
    ensures Form.Truthy(email) && TruthyId(productId) && '@' !in email.value ==>
      resp == Response(400, "Invalid email address") && subs.rows == old(subs.rows)
    ensures Form.Truthy(email) && TruthyId(productId) && '@' in email.value && productId.value !in products ==>
      resp.status == 500 && subs.rows == old(subs.rows)
    ensures Form.Truthy(email) && TruthyId(productId) && '@' in email.value && productId.value in products ==>
      resp.status == 200 && subs.rows == [Subscription(None, email, productId.value, false)] + old(subs.rows)
  {
    if !(Form.Truthy(email) && TruthyId(productId)) {
      return Response(400, "Missing required fields");
    }
    if '@' !in email.value {
      return Response(400, "Invalid email address");
    }
    if productId.value !in products {
      return Response(500, "");
    }
    subs.rows := [Subscription(None, email, productId.value, false)] + subs.rows;
    resp := Response(200, "Successfully subscribed to stock notifications");
  }

  predicate HasSubscribers(rows: seq<Subscription>, p: ProductId) {
    exists i :: 0 <= i < |rows| && rows[i].product == p
  }

  /** subs.delete(): every subscription of p goes, served or not; the rest
      stay in order. */
  function WithoutProduct(rows: seq<Subscription>, p: ProductId): (r: seq<Subscription>)
    ensures forall s :: s in r <==> s in rows && s.product != p
    ensures !HasSubscribers(r, p)
    ensures |r| <= |rows|
    ensures HasSubscribers(rows, p) ==> |r| < |rows|
    ensures !HasSubscribers(rows, p) ==> r == rows
  {
    if rows == [] then []
    else
      var rest := WithoutProduct(rows[1..], p);
      assert forall s :: s in rows <==> s == rows[0] || s in rows[1..];
      assert HasSubscribers(rows, p) <==> rows[0].product == p || HasSubscribers(rows[1..], p) by {
        if HasSubscribers(rows, p) && rows[0].product != p {
          var i :| 0 <= i < |rows| && rows[i].product == p;
          assert rows[1..][i - 1] == rows[i];
        }
        if HasSubscribers(rows[1..], p) {
          var i :| 0 <= i < |rows[1..]| && rows[1..][i].product == p;
          assert rows[i + 1] == rows[1..][i];
        }
      }
      if rows[0].product == p then rest
      else
        assert forall s :: s in [rows[0]] + rest <==> s == rows[0] || s in rest;
        assert !HasSubscribers(rows[1..], p) ==> [rows[0]] + rest == rows;
        [rows[0]] + rest
  }

  /** StockNotificationNotifyView.post (IsAuthenticated and
      IsAdminOrReadOnly, so staff only): 400 unless both fields are given;
      nothing to do without subscribers; the subscriptions of the product
      are deleted only once the mail has gone out, and a failed mail (500)
      deletes nothing. */
  method Notify(subs: SubscriptionTable, caller: Option<Caller>, productId: Option<nat>, productName: Form.Field, delivered: bool)
    returns (resp: Response)
    modifies subs
    ensures !(IsAuthenticated(AsRequestUser(caller)) && IsAdminOrReadOnly("POST", AsRequestUser(caller))) ==>
      resp.status == 403 && subs.rows == old(subs.rows)
    ensures caller.Some? && caller.value.isStaff && !(TruthyId(productId) && Form.Truthy(productName)) ==>
      resp == Response(400, "Missing required fields") && subs.rows == old(subs.rows)
    ensures caller.Some? && caller.value.isStaff && TruthyId(productId) && Form.Truthy(productName) &&
            !HasSubscribers(old(subs.rows), productId.value) ==>
      resp == Response(200, "No subscribers to notify.") && subs.rows == old(subs.rows)
    ensures caller.Some? && caller.value.isStaff && TruthyId(productId) && Form.Truthy(productName) &&
            HasSubscribers(old(subs.rows), productId.value) && !delivered ==>
      resp.status == 500 && subs.rows == old(subs.rows)
    ensures caller.Some? && caller.value.isStaff && TruthyId(productId) && Form.Truthy(productName) &&
            HasSubscribers(old(subs.rows), productId.value) && delivered ==>
      resp == Response(200, "Successfully notified subscribers.") && subs.rows == WithoutProduct(old(subs.rows), productId.value)
  {
    if !(IsAuthenticated(AsRequestUser(caller)) && IsAdminOrReadOnly("POST", AsRequestUser(caller))) {
      return Response(403, "You do not have permission to perform this action.");
    }
    if !(TruthyId(productId) && Form.Truthy(productName)) {
      return Response(400, "Missing required fields");
    }
    if !HasSubscribers(subs.rows, productId.value) {
      return Response(200, "No subscribers to notify.");
    }
    if !delivered {
      return Response(500, "Failed to notify subscribers");
    }
    subs.rows := WithoutProduct(subs.rows, productId.value);
    resp := Response(200, "Successfully notified subscribers.");
  }
}
