/** The PayU integration of payments/views.py (and its identical copy
    aquaticexotica_backend/payments/views.py) over the PayUPayment record
    of aquaticexotica_backend/payments/models.py: starting a payment for an
    order, and reconciling PayU's callback against the reverse hash.
    SHA-512 is a parameter `digest` (any string function); the uuid4 hex
    string is a parameter `hex`. */
module Payments {
  import opened Wrappers
  import opened Text
  import opened Money
  import opened Models
  import opened Signals
  import Form
  import Views

  /** The merchant settings the views read. */
  datatype Settings = Settings(key: string, salt: string, successUrl: string, failureUrl: string, baseUrl: string)

  // ---------------------------------------------------------------------
  // The PayUPayment record
  // ---------------------------------------------------------------------

  /** STATUS_CHOICES */
  const PaymentStatuses: set<string> := {"initiated", "success", "failure", "pending"}

  /** A PayUPayment row. `payuResponse` is the JSON field holding the
      callback's form, each key with the list of its values. */
  datatype Payment = Payment(
    txnid: string,
    order: OrderId,
    user: Option<UserId>,
    amount: Cents,
    status: string,
    payuResponse: Option<map<string, seq<string>>>,
    verified: bool)

  /** A freshly created payment carries the field defaults. */
  function NewPayment(txnid: string, order: OrderId, user: Option<UserId>, amount: Cents): (p: Payment)
    ensures p.status == "initiated" && p.status in PaymentStatuses
    ensures !p.verified && p.payuResponse.None?
    ensures p.txnid == txnid && p.order == order && p.user == user && p.amount == amount
  {
    Payment(txnid, order, user, amount, "initiated", None, false)
  }

  /** The table is keyed by txnid, so txnid is unique. */
  predicate TxnidKeyed(rows: map<string, Payment>) {
    forall t :: t in rows ==> rows[t].txnid == t
  }

  /** order is a one-to-one field: at most one payment per order. */
  predicate OnePerOrder(rows: map<string, Payment>) {
    forall t, u :: t in rows && u in rows && rows[t].order == rows[u].order ==> t == u
  }

  /** amount is a DecimalField(max_digits=10, decimal_places=2). */
  predicate AmountsFit(rows: map<string, Payment>) {
    forall t :: t in rows ==> FitsDecimal10x2(rows[t].amount)
  }

  predicate StoreValid(rows: map<string, Payment>) {
    TxnidKeyed(rows) && OnePerOrder(rows) && AmountsFit(rows)
  }

  predicate PaysFor(rows: map<string, Payment>, order: OrderId) {
    exists t :: t in rows && rows[t].order == order
  }

  /** PayUPayment.objects.create: refused (IntegrityError or a numeric
      overflow) when the txnid is taken, the order already has a payment,
      or the amount does not fit the column. */
  function CreatePayment(rows: map<string, Payment>, p: Payment): (r: Option<map<string, Payment>>)
    ensures r.Some? <==> p.txnid !in rows && !PaysFor(rows, p.order) && FitsDecimal10x2(p.amount)
    ensures r.Some? ==> r.value == rows[p.txnid := p]
    ensures r.Some? && StoreValid(rows) ==> StoreValid(r.value)
  {
    if p.txnid in rows || PaysFor(rows, p.order) || !FitsDecimal10x2(p.amount) then None
    else Some(rows[p.txnid := p])
  }

  // ---------------------------------------------------------------------
  // Transaction ids
  // ---------------------------------------------------------------------

  predicate IsHexDigit(c: char) { '0' <= c <= '9' || 'a' <= c <= 'f' }
  predicate IsHex(s: string) { forall i :: 0 <= i < |s| ==> IsHexDigit(s[i]) }

  /** uuid4().hex[:20]: the hex string of a UUID is 32 lower-case hex
      digits. */
  function TxnId(hex: string): (t: string)
    requires |hex| == 32 && IsHex(hex)
    ensures |t| == 20 && IsHex(t) && '|' !in t
    ensures t == hex[..20]
  {
    assert forall i :: 0 <= i < 20 ==> IsHexDigit(hex[..20][i]);
    hex[..20]
  }

  // ---------------------------------------------------------------------
  // The two hash strings
  // ---------------------------------------------------------------------

  /** The request hash string: the six named fields, ten empty ones and the
      salt, separated by '|'. */
  function RequestHashString(key: string, txnid: string, amount: string, productinfo: string,
                             firstname: string, email: string, salt: string): string
  {
    key + "|" + txnid + "|" + amount + "|" + productinfo + "|" + firstname + "|" + email + "|||||||||||" + salt
  }

  /** The reverse hash string: salt and status, ten empty fields, then the
      customer and order fields in reverse order and the key. */
  function ReverseHashString(salt: string, status: string, email: string, firstname: string,
                             productinfo: string, amount: string, txnid: string, key: string): string
  {
    salt + "|" + status + "|||||||||||" + email + "|" + firstname + "|" + productinfo + "|" + amount + "|" + txnid + "|" + key
  }

  function Empties(n: nat): (r: seq<string>)
    ensures |r| == n && forall i :: 0 <= i < n ==> r[i] == ""
  {
    if n == 0 then [] else [""] + Empties(n - 1)
  }

  function Pipes(n: nat): (r: string)
    ensures |r| == n && forall i :: 0 <= i < n ==> r[i] == '|'
  {
    if n == 0 then [] else "|" + Pipes(n - 1)
  }

  lemma {:induction false} JoinAppend(ps: seq<string>, rest: seq<string>, d: char)
    requires |ps| >= 1 && |rest| >= 1
    ensures Join(ps + rest, d) == Join(ps, d) + [d] + Join(rest, d)
  {
    if |ps| == 1 {
      assert ps + rest == [ps[0]] + rest;
      assert ([ps[0]] + rest)[1..] == rest;
    } else {
      JoinAppend(ps[1..], rest, d);
      assert (ps + rest)[1..] == ps[1..] + rest;
      assert (ps + rest)[0] == ps[0];
    }
  }

  /** n empty fields followed by x. */
  lemma {:induction false} JoinEmpties(n: nat, x: string)
    ensures Join(Empties(n) + [x], '|') == Pipes(n) + x
  {
    if n > 0 {
      JoinEmpties(n - 1, x);
      assert (Empties(n) + [x])[1..] == Empties(n - 1) + [x];
      assert (Empties(n) + [x])[0] == "";
    } else {
      assert Empties(0) + [x] == [x];
    }
  }

  lemma PipesTen()
    ensures "|" + Pipes(10) == "|||||||||||"
  {
    assert Pipes(10) == "||||||||||";
  }

  lemma Join2(a: string, b: string)
    ensures Join([a, b], '|') == a + "|" + b
  {
    assert [a, b][1..] == [b];
  }

  function RequestHashFields(key: string, txnid: string, amount: string, productinfo: string,
                             firstname: string, email: string, salt: string): (r: seq<string>)
    ensures |r| == 17
  {
    [key, txnid, amount, productinfo, firstname, email] + Empties(10) + [salt]
  }

  function ReverseHashFields(salt: string, status: string, email: string, firstname: string,
                             productinfo: string, amount: string, txnid: string, key: string): (r: seq<string>)
    ensures |r| == 18
  {
    [salt, status] + Empties(10) + [email, firstname, productinfo, amount, txnid, key]
  }

  lemma Join5(b: string, c: string, d: string, e: string, f: string)
    ensures Join([b, c, d, e, f], '|') == b + "|" + (c + "|" + (d + "|" + (e + "|" + f)))
  {
    Join2(e, f);
    assert [d, e, f][1..] == [e, f];
    assert Join([d, e, f], '|') == d + "|" + (e + "|" + f);
    assert [c, d, e, f][1..] == [d, e, f];
    assert Join([c, d, e, f], '|') == c + "|" + (d + "|" + (e + "|" + f));
    assert [b, c, d, e, f][1..] == [c, d, e, f];
  }

  lemma Join6(a: string, b: string, c: string, d: string, e: string, f: string)
    ensures Join([a, b, c, d, e, f], '|') == a + "|" + b + "|" + c + "|" + d + "|" + e + "|" + f
  {
    Join5(b, c, d, e, f);
    assert [a, b, c, d, e, f][1..] == [b, c, d, e, f];
    assert Join([a, b, c, d, e, f], '|') == a + "|" + (b + "|" + (c + "|" + (d + "|" + (e + "|" + f))));
  }

  /** The request hash string is the '|'-join of its seventeen fields. */
  lemma RequestHashIsJoin(key: string, txnid: string, amount: string, productinfo: string,
                          firstname: string, email: string, salt: string)
    ensures RequestHashString(key, txnid, amount, productinfo, firstname, email, salt) ==
            Join(RequestHashFields(key, txnid, amount, productinfo, firstname, email, salt), '|')
  {
    var head := [key, txnid, amount, productinfo, firstname, email];
    JoinAppend(head, Empties(10) + [salt], '|');
    assert head + (Empties(10) + [salt]) == RequestHashFields(key, txnid, amount, productinfo, firstname, email, salt);
    JoinEmpties(10, salt);
    Join6(key, txnid, amount, productinfo, firstname, email);
    PipesTen();
  }

  lemma JoinStatusEmail(status: string, email: string)
    ensures Join([status] + (Empties(10) + [email]), '|') == status + "|" + (Pipes(10) + email)
  {
    JoinAppend([status], Empties(10) + [email], '|');
    JoinEmpties(10, email);
  }

  /** The reverse hash string with its concatenations grouped as the join
      builds them. */
  lemma ReverseHashNested(salt: string, status: string, email: string, firstname: string,
                          productinfo: string, amount: string, txnid: string, key: string)
    ensures ReverseHashString(salt, status, email, firstname, productinfo, amount, txnid, key) ==
            salt + "|" + ((status + "|" + (Pipes(10) + email)) + "|" +
                          (firstname + "|" + (productinfo + "|" + (amount + "|" + (txnid + "|" + key)))))
  {
    PipesTen();
  }

  /** The reverse hash string is the '|'-join of its eighteen fields. */
  lemma ReverseHashIsJoin(salt: string, status: string, email: string, firstname: string,
                          productinfo: string, amount: string, txnid: string, key: string)
    ensures ReverseHashString(salt, status, email, firstname, productinfo, amount, txnid, key) ==
            Join(ReverseHashFields(salt, status, email, firstname, productinfo, amount, txnid, key), '|')
  {
    var rest := [firstname, productinfo, amount, txnid, key];
    var middle := [status] + (Empties(10) + [email]);
    var fields := ReverseHashFields(salt, status, email, firstname, productinfo, amount, txnid, key);
    assert fields == [salt] + (middle + rest);
    JoinAppend([salt], middle + rest, '|');
    JoinAppend(middle, rest, '|');
    JoinStatusEmail(status, email);
    Join5(firstname, productinfo, amount, txnid, key);
    ReverseHashNested(salt, status, email, firstname, productinfo, amount, txnid, key);
  }

  /** The request hash string determines its fields: read back at the '|'
      separators it gives the seventeen fields, so two different requests
      whose fields hold no '|' never hash the same string. */
  lemma RequestHashSplits(key: string, txnid: string, amount: string, productinfo: string,
                          firstname: string, email: string, salt: string)
    requires '|' !in key && '|' !in txnid && '|' !in amount && '|' !in productinfo
    requires '|' !in firstname && '|' !in email && '|' !in salt
    ensures Split(RequestHashString(key, txnid, amount, productinfo, firstname, email, salt), '|') ==
            RequestHashFields(key, txnid, amount, productinfo, firstname, email, salt)
  {
    RequestHashIsJoin(key, txnid, amount, productinfo, firstname, email, salt);
    var fields := RequestHashFields(key, txnid, amount, productinfo, firstname, email, salt);
    assert Free(fields, '|') by {
      forall i | 0 <= i < |fields| ensures '|' !in fields[i] {
        if 6 <= i < 16 { assert fields[i] == Empties(10)[i - 6]; }
      }
    }
    SplitJoin(fields, '|');
  }

  /** The same for the reverse hash string and its eighteen fields. */
  lemma ReverseHashSplits(salt: string, status: string, email: string, firstname: string,
                          productinfo: string, amount: string, txnid: string, key: string)
    requires '|' !in salt && '|' !in status && '|' !in email && '|' !in firstname
    requires '|' !in productinfo && '|' !in amount && '|' !in txnid && '|' !in key
    ensures Split(ReverseHashString(salt, status, email, firstname, productinfo, amount, txnid, key), '|') ==
            ReverseHashFields(salt, status, email, firstname, productinfo, amount, txnid, key)
  {
    ReverseHashIsJoin(salt, status, email, firstname, productinfo, amount, txnid, key);
    var fields := ReverseHashFields(salt, status, email, firstname, productinfo, amount, txnid, key);
    assert Free(fields, '|') by {
      forall i | 0 <= i < |fields| ensures '|' !in fields[i] {
        if 2 <= i < 12 { assert fields[i] == Empties(10)[i - 2]; }
      }
    }
    SplitJoin(fields, '|');
  }

  // ---------------------------------------------------------------------
  // PayUInitiateView
  // ---------------------------------------------------------------------

  /** The fields the view returns to the client. */
  datatype PaymentForm = PaymentForm(
    key: string, txnid: string, amount: string, productinfo: string, firstname: string,
    email: string, hash: string, surl: string, furl: string, payuUrl: string)

  /** firstname: the user's first name, or "User" when it is empty. */
  function FirstnameOf(u: User): (r: string)
    ensures r != ""
    ensures u.firstName != "" ==> r == u.firstName
  {
    if u.firstName != "" then u.firstName else "User"
  }

  /** PayUInitiateView.post. Anonymous callers are refused (403); an order
      that is missing or not the caller's raises (500) before anything is
      written; so does a refused insert. Otherwise the payment is created
      with the defaults and the form with the request hash is returned. */
  function Initiate(payments: map<string, Payment>, orders: map<OrderId, Order>, users: map<UserId, User>,
                    settings: Settings, digest: string -> string, hex: string,
                    caller: Option<UserId>, orderId: OrderId): (r: (Result<PaymentForm, nat>, map<string, Payment>))
    requires |hex| == 32 && IsHex(hex)
    requires caller.Some? ==> caller.value in users
    ensures r.0.Failure? ==> r.1 == payments
    ensures caller.None? ==> r.0 == Failure(403)
    ensures caller.Some? && (orderId !in orders || orders[orderId].user != caller.value) ==> r.0 == Failure(500)
    ensures r.0.Success? ==>
      caller.Some? && orderId in orders && orders[orderId].user == caller.value &&
      var o := orders[orderId];
      var form := r.0.value;
      |form.txnid| == 20 && IsHex(form.txnid) && form.txnid == hex[..20] &&
      form.amount == DecimalString(GrandTotal(o)) &&
      form.productinfo == "Order #" + NatToString(o.id) &&
      form.firstname == FirstnameOf(users[caller.value]) &&
      form.email == users[caller.value].email &&
      form.key == settings.key &&
      form.hash == LowerStr(digest(RequestHashString(settings.key, form.txnid, form.amount, form.productinfo,
                                                     form.firstname, form.email, settings.salt))) &&
      r.1 == payments[form.txnid := NewPayment(form.txnid, o.id, caller, GrandTotal(o))]
    ensures r.0.Success? ==> NoUpper(r.0.value.hash)
  {
    if caller.None? then (Failure(403), payments)
    else if orderId !in orders || orders[orderId].user != caller.value then (Failure(500), payments)
    else
      var o := orders[orderId];
      var user := users[caller.value];
      var txnid := TxnId(hex);
      var amount := GrandTotal(o);
      var productinfo := "Order #" + NatToString(o.id);
      var firstname := FirstnameOf(user);
      match CreatePayment(payments, NewPayment(txnid, o.id, caller, amount))
      case None => (Failure(500), payments)
      case Some(created) =>
        var amountText := DecimalString(amount);
        var hash := LowerStr(digest(RequestHashString(settings.key, txnid, amountText, productinfo, firstname, user.email, settings.salt)));
        (Success(PaymentForm(settings.key, txnid, amountText, productinfo, firstname, user.email, hash,
                             settings.successUrl, settings.failureUrl, settings.baseUrl)), created)
  }

  /** The one-to-one order field means an order can be started only once:
      a second initiation for the same order fails and writes nothing,
      whatever uuid it draws. */
  lemma InitiateOncePerOrder(payments: map<string, Payment>, orders: map<OrderId, Order>, users: map<UserId, User>,
                             settings: Settings, digest: string -> string, hex1: string, hex2: string,
                             caller: Option<UserId>, orderId: OrderId)
    requires |hex1| == 32 && IsHex(hex1) && |hex2| == 32 && IsHex(hex2)
    requires caller.Some? ==> caller.value in users
    requires Initiate(payments, orders, users, settings, digest, hex1, caller, orderId).0.Success?
    ensures var after := Initiate(payments, orders, users, settings, digest, hex1, caller, orderId).1;
      Initiate(after, orders, users, settings, digest, hex2, caller, orderId) == (Failure(500), after)
  {
    var after := Initiate(payments, orders, users, settings, digest, hex1, caller, orderId).1;
    var txnid := TxnId(hex1);
    assert after[txnid].order == orders[orderId].id;
    assert PaysFor(after, orders[orderId].id);
  }

  // ---------------------------------------------------------------------
  // PayUWebhookView
  // ---------------------------------------------------------------------

  /** The posted form, as (name, value) pairs in the order received; a name
      may repeat. */
  type FormData = seq<(string, string)>

  /** Every value posted under k, in order. */
  function Values(data: FormData, k: string): (vs: seq<string>)
    ensures |vs| > 0 <==> exists i :: 0 <= i < |data| && data[i].0 == k
  {
    if data == [] then []
    else
      var init := data[..|data| - 1];
      assert forall i :: 0 <= i < |init| ==> init[i] == data[i];
      Values(init, k) + (if data[|data| - 1].0 == k then [data[|data| - 1].1] else [])
  }

  /** QueryDict.get(k): the last value posted under k, or None. */
  function FormGet(data: FormData, k: string): (r: Option<string>)
    ensures r.None? <==> Values(data, k) == []
    ensures r.Some? ==> r.value == Values(data, k)[|Values(data, k)| - 1]
  {
    if data == [] then None
    else if data[|data| - 1].0 == k then Some(data[|data| - 1].1)
    else FormGet(data[..|data| - 1], k)
  }

  /** dict(request.POST): each posted name with the list of its values. */
  function AsDict(data: FormData): (m: map<string, seq<string>>)
    ensures forall k :: k in m <==> FormGet(data, k).Some?
    ensures forall k :: k in m ==> m[k] == Values(data, k) && FormGet(data, k).value == m[k][|m[k]| - 1]
  {
    map k | k in (set i | 0 <= i < |data| :: data[i].0) :: Values(data, k)
  }

  /** The order status a callback leads to. */
  function OrderStatusAfter(current: string, payuStatus: string): (r: string)
    ensures payuStatus == "success" ==> r == "processing"
    ensures payuStatus == "failure" ==> r == "cancelled"
    ensures payuStatus != "success" && payuStatus != "failure" ==> r == current
  {
    if payuStatus == "success" then "processing"
    else if payuStatus == "failure" then "cancelled"
    else current
  }

  /** The hash the view expects for a callback about txnid. Absent fields
      enter the string as "None". */
  function ExpectedHash(settings: Settings, digest: string -> string, data: FormData, txnid: string): (h: string)
    ensures NoUpper(h)
  {
    LowerStr(digest(ReverseHashString(settings.salt, Form.Render(FormGet(data, "status")),
      Form.Render(FormGet(data, "email")), Form.Render(FormGet(data, "firstname")),
      Form.Render(FormGet(data, "productinfo")), Form.Render(FormGet(data, "amount")), txnid, settings.key)))
  }

  /** The answer, the payment table after the callback, and the order the
      view saves (None: no order is saved). */
  datatype WebhookResult = WebhookResult(response: Views.Response, payments: map<string, Payment>, saved: Option<Order>)

  /** Every payment's order exists: deleting an order deletes its payment. */
  predicate OrdersExist(payments: map<string, Payment>, orders: map<OrderId, Order>) {
    forall t :: t in payments ==> payments[t].order in orders
  }

  predicate Known(payments: map<string, Payment>, data: FormData) {
    FormGet(data, "txnid").Some? && FormGet(data, "txnid").value in payments
  }

  predicate Authentic(payments: map<string, Payment>, settings: Settings, digest: string -> string, data: FormData) {
    Known(payments, data) &&
    FormGet(data, "hash") == Some(ExpectedHash(settings, digest, data, FormGet(data, "txnid").value))
  }

  /** PayUWebhookView.post: 400 for a missing or unknown txnid, 403 when
      the received hash is not exactly the expected one; a missing status
      cannot be stored (500). Otherwise the payment takes the status as
      sent, is marked verified and keeps the form; the order becomes
      processing on success, cancelled on failure, and is saved either
      way. */
  function Webhook(payments: map<string, Payment>, orders: map<OrderId, Order>,
                   settings: Settings, digest: string -> string, data: FormData): (r: WebhookResult)
    requires OrdersExist(payments, orders)
    ensures !Known(payments, data) ==> r == WebhookResult(Views.Response(400, "Invalid txnid"), payments, None)
    ensures Known(payments, data) && !Authentic(payments, settings, digest, data) ==>
      r == WebhookResult(Views.Response(403, "Hash mismatch"), payments, None)
    ensures r.response.status != 200 ==> r.payments == payments && r.saved.None?
    ensures r.response.status == 200 <==> Authentic(payments, settings, digest, data) && FormGet(data, "status").Some?
    ensures r.response.status == 200 ==>
      var t := FormGet(data, "txnid").value;
      var s := FormGet(data, "status").value;
      var o := orders[payments[t].order];
      r.payments == payments[t := payments[t].(status := s, verified := true, payuResponse := Some(AsDict(data)))] &&
      r.saved == Some(o.(status := OrderStatusAfter(o.status, s)))
  {
    var txnid := FormGet(data, "txnid");
    if txnid.None? || txnid.value !in payments then
      WebhookResult(Views.Response(400, "Invalid txnid"), payments, None)
    else if FormGet(data, "hash") != Some(ExpectedHash(settings, digest, data, txnid.value)) then
      WebhookResult(Views.Response(403, "Hash mismatch"), payments, None)
    else
      match FormGet(data, "status")
      case None => WebhookResult(Views.Response(500, ""), payments, None)
      case Some(s) =>
        var p := payments[txnid.value];
        var updated := p.(status := s, verified := true, payuResponse := Some(AsDict(data)));
        var o := payments[txnid.value].order;
        WebhookResult(Views.Response(200, "Webhook processed"), payments[txnid.value := updated],
                      Some(orders[o].(status := OrderStatusAfter(orders[o].status, s))))
  }

  /** The expected hash is lower-case, and the comparison is exact, so a
      callback whose hash has an upper-case letter is always refused. */
  lemma UpperCaseHashRejected(payments: map<string, Payment>, orders: map<OrderId, Order>,
                              settings: Settings, digest: string -> string, data: FormData, i: nat)
    requires OrdersExist(payments, orders) && Known(payments, data)
    requires FormGet(data, "hash").Some? && i < |FormGet(data, "hash").value| && IsUpper(FormGet(data, "hash").value[i])
    ensures Webhook(payments, orders, settings, digest, data).response == Views.Response(403, "Hash mismatch")
  {
    var h := ExpectedHash(settings, digest, data, FormGet(data, "txnid").value);
    assert NoUpper(h);
  }

  /** The callback keeps the table's invariants. */
  lemma WebhookKeepsStore(payments: map<string, Payment>, orders: map<OrderId, Order>,
                          settings: Settings, digest: string -> string, data: FormData)
    requires OrdersExist(payments, orders) && StoreValid(payments)
    ensures StoreValid(Webhook(payments, orders, settings, digest, data).payments)
    ensures OrdersExist(Webhook(payments, orders, settings, digest, data).payments, orders)
  {
    var r := Webhook(payments, orders, settings, digest, data);
    if r.response.status == 200 {
      var t := FormGet(data, "txnid").value;
      forall a, b | a in r.payments && b in r.payments && r.payments[a].order == r.payments[b].order
        ensures a == b
      {
        assert r.payments[a].order == payments[a].order && r.payments[b].order == payments[b].order;
      }
    }
  }

  /** Replaying a callback changes nothing more: once the payment and the
      saved order are in place, the same form leads to the same payment and
      the same order. */
  lemma WebhookIdempotent(payments: map<string, Payment>, orders: map<OrderId, Order>,
                          settings: Settings, digest: string -> string, data: FormData)
    requires OrdersExist(payments, orders) && Signals.Keyed(orders)
    requires Webhook(payments, orders, settings, digest, data).response.status == 200
    ensures var r1 := Webhook(payments, orders, settings, digest, data);
      var orders1 := orders[r1.saved.value.id := r1.saved.value];
      OrdersExist(r1.payments, orders1) &&
      var r2 := Webhook(r1.payments, orders1, settings, digest, data);
      r2.payments == r1.payments && r2.saved == r1.saved
  {
    var r1 := Webhook(payments, orders, settings, digest, data);
    var t := FormGet(data, "txnid").value;
    var s := FormGet(data, "status").value;
    var o := orders[payments[t].order];
    var orders1 := orders[r1.saved.value.id := r1.saved.value];
    assert r1.payments[t].order == payments[t].order;
    assert o.id == payments[t].order;
    assert orders1[payments[t].order] == o.(status := OrderStatusAfter(o.status, s));
    assert OrderStatusAfter(OrderStatusAfter(o.status, s), s) == OrderStatusAfter(o.status, s);
    assert OrdersExist(r1.payments, orders1);
    var r2 := Webhook(r1.payments, orders1, settings, digest, data);
    assert Authentic(r1.payments, settings, digest, data);
    assert r2.payments == r1.payments[t := r1.payments[t].(status := s, verified := true, payuResponse := Some(AsDict(data)))];
  }

  /** Nothing guards a verified payment: a later authentic callback with
      another status overwrites the first. */
  lemma LaterCallbackOverwrites(payments: map<string, Payment>, orders: map<OrderId, Order>,
                                settings: Settings, digest: string -> string, data1: FormData, data2: FormData)
    requires OrdersExist(payments, orders)
    requires Webhook(payments, orders, settings, digest, data1).response.status == 200
    requires FormGet(data2, "txnid") == FormGet(data1, "txnid")
    requires Authentic(Webhook(payments, orders, settings, digest, data1).payments, settings, digest, data2)
    requires FormGet(data2, "status").Some?
    ensures var p1 := Webhook(payments, orders, settings, digest, data1).payments;
      var t := FormGet(data1, "txnid").value;
      OrdersExist(p1, orders) &&
      Webhook(p1, orders, settings, digest, data2).payments[t].status == FormGet(data2, "status").value &&
      Webhook(p1, orders, settings, digest, data2).payments[t].verified
  {
    var p1 := Webhook(payments, orders, settings, digest, data1).payments;
    var t := FormGet(data1, "txnid").value;
    assert p1[t].order == payments[t].order;
    assert OrdersExist(p1, orders);
  }

  // ---------------------------------------------------------------------
  // The tables
  // ---------------------------------------------------------------------

  class PaymentTable {
    var rows: map<string, Payment>

    constructor()
      ensures rows == map[]
    {
      rows := map[];
    }
  }

  /** PayUInitiateView.post on the payment table. */
  method InitiateOn(payments: PaymentTable, orders: OrderTable, users: map<UserId, User>,
                    settings: Settings, digest: string -> string, hex: string,
                    caller: Option<UserId>, orderId: OrderId) returns (resp: Result<PaymentForm, nat>)
    requires |hex| == 32 && IsHex(hex)
    requires caller.Some? ==> caller.value in users
    modifies payments
    ensures resp == Initiate(old(payments.rows), orders.rows, users, settings, digest, hex, caller, orderId).0
    ensures payments.rows == Initiate(old(payments.rows), orders.rows, users, settings, digest, hex, caller, orderId).1
  {
    if caller.None? {
      return Failure(403);
    }
    if orderId !in orders.rows || orders.rows[orderId].user != caller.value {
      return Failure(500);
    }
    var order := orders.rows[orderId];
    var user := users[caller.value];
    var txnid := TxnId(hex);
    var amount := GrandTotal(order);
    var productinfo := "Order #" + NatToString(order.id);
    var firstname := FirstnameOf(user);
    var email := user.email;
    var created := CreatePayment(payments.rows, NewPayment(txnid, order.id, caller, amount));
    if created.None? {
      return Failure(500);
    }
    payments.rows := created.value;
    var amountText := DecimalString(amount);
    var hash := LowerStr(digest(RequestHashString(settings.key, txnid, amountText, productinfo, firstname, email, settings.salt)));
    resp := Success(PaymentForm(settings.key, txnid, amountText, productinfo, firstname, email, hash,
                                settings.successUrl, settings.failureUrl, settings.baseUrl));
  }

  /** PayUWebhookView.post on the tables: the payment row is written, then
      the order is saved, which runs the status-change handler. */
  method WebhookOn(payments: PaymentTable, orders: OrderTable, log: NotificationLog,
                   settings: Settings, digest: string -> string, data: FormData) returns (resp: Views.Response)
    requires OrdersExist(payments.rows, orders.rows) && Signals.Keyed(orders.rows)
    modifies payments, orders, log
    ensures var r := Webhook(old(payments.rows), old(orders.rows), settings, digest, data);
      resp == r.response && payments.rows == r.payments &&
      (r.saved.None? ==> orders.rows == old(orders.rows) && log.sent == old(log.sent)) &&
      (r.saved.Some? ==>
        r.saved.value.id in old(orders.rows) &&
        orders.rows == old(orders.rows)[r.saved.value.id := r.saved.value] &&
        log.sent == old(log.sent) + StatusChangeNotes(Some(old(orders.rows)[r.saved.value.id]), r.saved.value))
  {
    var txnid := FormGet(data, "txnid");
    if txnid.None? || txnid.value !in payments.rows {
      return Views.Response(400, "Invalid txnid");
    }
    var expected := ExpectedHash(settings, digest, data, txnid.value);
    if FormGet(data, "hash") != Some(expected) {
      return Views.Response(403, "Hash mismatch");
    }
    var status := FormGet(data, "status");
    if status.None? {
      return Views.Response(500, "");
    }
    var payment := payments.rows[txnid.value];
    payment := payment.(status := status.value, verified := true, payuResponse := Some(AsDict(data)));
    payments.rows := payments.rows[txnid.value := payment];
    var order := orders.rows[payment.order];
    order := order.(status := OrderStatusAfter(order.status, status.value));
    orders.Save(order, log);
    resp := Views.Response(200, "Webhook processed");
  }
}
