/** The entities of core/models.py that the core logic touches, with their
    derived values (stock, discount, tags, totals) and the two save()
    overrides that keep a flag unique per owner. Money is in cents. */
module Models {
  import opened Wrappers
  import opened Text
  import opened Money

  type UserId = nat
  type ProductId = nat
  type OrderId = nat
  type CategoryId = nat
  type TagId = nat

  /** User: username and email are both unique across the table. */
  datatype User = User(
    username: string,
    email: string,
    firstName: string,
    lastName: string,
    phone: Option<string>,
    isStaff: bool,
    isSuperuser: bool)

  datatype ShippingAddress = ShippingAddress(user: UserId, line1: string, city: string, isDefault: bool)

  datatype Category = Category(name: string, slug: string)

  /** The product fields the core reads; `tags` is the comma-separated
      CharField. Product declares a single `category` foreign key and no
      tag relation, yet the related-products action queries many-to-many
      `categories` and `tags`: `categories` and `tagIds` stand for those
      undeclared relations, so that the action's evidently intended
      behaviour can be stated. */
  datatype Product = Product(
    id: ProductId,
    name: string,
    price: Cents,
    compareAtPrice: Option<Cents>,
    tags: string,
    stock: nat,
    isActive: bool,
    categories: set<CategoryId>,
    tagIds: set<TagId>)

  datatype ProductImage = ProductImage(product: ProductId, url: string, isPrimary: bool)

  /** A cart line holds the product itself, so its price is the live one. */
  datatype CartItem = CartItem(product: Product, quantity: nat)

  /** An order line stores the unit price paid at ordering time. */
  datatype OrderItem = OrderItem(product: Product, quantity: nat, price: Cents)

  datatype Order = Order(
    id: OrderId,
    user: UserId,
    totalAmount: Cents,
    shippingCost: Cents,
    status: string)

  /** Order.STATUS_CHOICES */
  const OrderStatuses: set<string> := {"pending", "processing", "shipped", "delivered", "cancelled"}

  // ---------------------------------------------------------------------
  // Derived values
  // ---------------------------------------------------------------------

  /** Product.is_in_stock */
  predicate IsInStock(p: Product) {
    p.stock > 0 && p.isActive
  }

  /** The guard both discount computations share: a compare-at price that
      is set, non-zero and above the price. */
  predicate HasDiscount(price: Cents, compareAt: Option<Cents>) {
    compareAt.Some? && compareAt.value != 0 && compareAt.value > price
  }

  /** (compare - price) / compare * 100 as the exact ratio num / den with a
      positive denominator. */
  function DiscountRatio(price: Cents, compare: Cents): (nd: (int, int))
    requires compare != 0
    ensures nd.1 > 0
    ensures nd.0 * compare == nd.1 * (compare - price) * 100
  {
    if compare > 0 then ((compare - price) * 100, compare)
    else (-(compare - price) * 100, -compare)
  }

  /** Product.discount_percentage: round() of the percentage saved, or 0. */
  function DiscountPercentage(p: Product): (r: int)
    ensures !HasDiscount(p.price, p.compareAtPrice) ==> r == 0
    ensures HasDiscount(p.price, p.compareAtPrice) ==>
      var nd := DiscountRatio(p.price, p.compareAtPrice.value);
      2 * Abs(nd.0 - r * nd.1) <= nd.1 && (2 * Abs(nd.0 - r * nd.1) == nd.1 ==> r % 2 == 0)
  {
    if HasDiscount(p.price, p.compareAtPrice) then
      var nd := DiscountRatio(p.price, p.compareAtPrice.value);
      RoundHalfEven(nd.0, nd.1)
    else 0
  }

  /** With prices that are not negative the discount is a percentage. */
  lemma DiscountPercentageInRange(p: Product)
    requires p.price >= 0
    ensures 0 <= DiscountPercentage(p) <= 100
  {
    if HasDiscount(p.price, p.compareAtPrice) {
      var c := p.compareAtPrice.value;
      var n := (c - p.price) * 100;
      var r := DiscountPercentage(p);
      assert 0 <= n <= 100 * c;
      if r < 0 {
        StepApart(r, 0, c);
        assert false;
      }
      if r > 100 {
        StepApart(100, r, c);
        assert false;
      }
    }
  }

  /** Product.get_tags_list: split on ',', strip each piece, drop the empty
      ones. */
  function GetTagsList(tags: string): (r: seq<string>)
    ensures forall i :: 0 <= i < |r| ==> CleanTag(r[i])
  {
    StrippedNonEmpty(Split(tags, ','))
  }

  /** A tag as get_tags_list returns it. */
  predicate CleanTag(t: string) { t != [] && Stripped(t) && ',' !in t }

  function StrippedNonEmpty(pieces: seq<string>): (r: seq<string>)
    ensures |r| <= |pieces|
    ensures forall i :: 0 <= i < |r| ==> r[i] != [] && Stripped(r[i])
    ensures (forall i :: 0 <= i < |pieces| ==> ',' !in pieces[i]) ==> forall i :: 0 <= i < |r| ==> ',' !in r[i]
  {
    if pieces == [] then [] else Kept(pieces[0]) + StrippedNonEmpty(pieces[1..])
  }

  /** One piece stripped, or nothing when it strips to empty. */
  function Kept(piece: string): (r: seq<string>)
    ensures |r| <= 1
    ensures forall i :: 0 <= i < |r| ==> r[i] != [] && Stripped(r[i]) && forall c :: c in r[i] ==> c in piece
  {
    var t := Strip(piece);
    if t != [] then [t] else []
  }

  lemma {:induction false} StrippedNonEmptyOfClean(ts: seq<string>)
    requires forall i :: 0 <= i < |ts| ==> CleanTag(ts[i])
    ensures StrippedNonEmpty(ts) == ts
  {
    if ts != [] {
      StrippedNonEmptyOfClean(ts[1..]);
      assert ts == [ts[0]] + ts[1..];
    }
  }

  /** Tags written back as a comma-separated string are read back in the
      same order. */
  lemma TagsRoundTrip(ts: seq<string>)
    requires |ts| >= 1
    requires forall i :: 0 <= i < |ts| ==> CleanTag(ts[i])
    ensures GetTagsList(Join(ts, ',')) == ts
  {
    SplitJoin(ts, ',');
    StrippedNonEmptyOfClean(ts);
  }

  /** A field without a comma is one tag, stripped, or none when it is
      blank. */
  lemma TagsOfPiece(w: string)
    requires ',' !in w
    ensures GetTagsList(w) == if Blank(w) then [] else [Strip(w)]
  {
    StripMeaning(w);
    SplitFreePrefix(w, [], ',');
    assert w + [] == w;
    assert Split([], ',') == [[]];
    assert Split(w, ',') == [w];
    assert [w][1..] == [];
  }

  /** The tags of two comma-separated stretches are the tags of each, in
      order. */
  lemma TagsOfConcat(a: string, b: string)
    ensures GetTagsList(a + "," + b) == GetTagsList(a) + GetTagsList(b)
  {
    assert a + "," + b == a + [','] + b;
    SplitAppend(a, b, ',');
    StrippedNonEmptyAppend(Split(a, ','), Split(b, ','));
  }

  lemma {:induction false} StrippedNonEmptyAppend(x: seq<string>, y: seq<string>)
    ensures StrippedNonEmpty(x + y) == StrippedNonEmpty(x) + StrippedNonEmpty(y)
  {
    if x == [] {
      assert x + y == y;
    } else {
      StrippedNonEmptyAppend(x[1..], y);
      StrippedNonEmptyAppendStep(x, y);
    }
  }

  lemma StrippedNonEmptyAppendStep(x: seq<string>, y: seq<string>)
    requires x != []
    requires StrippedNonEmpty(x[1..] + y) == StrippedNonEmpty(x[1..]) + StrippedNonEmpty(y)
    ensures StrippedNonEmpty(x + y) == StrippedNonEmpty(x) + StrippedNonEmpty(y)
  {
    var x0, x1 := x[0], x[1..];
    calc {
      StrippedNonEmpty(x + y);
      { ConsAppend(x, y); }
      StrippedNonEmpty([x0] + (x1 + y));
      { StrippedNonEmptyCons(x0, x1 + y); }
      Kept(x0) + (StrippedNonEmpty(x1) + StrippedNonEmpty(y));
      { AppendAssoc(Kept(x0), StrippedNonEmpty(x1), StrippedNonEmpty(y)); }
      (Kept(x0) + StrippedNonEmpty(x1)) + StrippedNonEmpty(y);
      { ConsAppend(x, y); StrippedNonEmptyCons(x0, x1); }
      StrippedNonEmpty(x) + StrippedNonEmpty(y);
    }
  }

  lemma StrippedNonEmptyCons(p: string, rest: seq<string>)
    ensures StrippedNonEmpty([p] + rest) == Kept(p) + StrippedNonEmpty(rest)
  {
    assert ([p] + rest)[1..] == rest;
  }

  /** An empty tags field gives no tags. */
  lemma NoTags()
    ensures GetTagsList("") == []
  {
    assert Split("", ',') == [[]];
    assert Strip([]) == [];
  }

  /** CartItem.total_price: the live product price times the quantity. */
  function CartItemTotal(item: CartItem): Cents {
    item.quantity * item.product.price
  }

  /** OrderItem.total_price: the stored unit price times the quantity. */
  function OrderItemTotal(item: OrderItem): Cents {
    item.price * item.quantity
  }

  /** A repricing of the product reaches the cart line but not the order
      line. */
  lemma RepricingReachesCartNotOrder(c: CartItem, o: OrderItem, newPrice: Cents)
    ensures CartItemTotal(c.(product := c.product.(price := newPrice))) == c.quantity * newPrice
    ensures OrderItemTotal(o.(product := o.product.(price := newPrice))) == OrderItemTotal(o)
  {
  }

  /** Cart.total_items */
  function CartTotalItems(items: seq<CartItem>): (n: nat)
    ensures items == [] ==> n == 0
  {
    if items == [] then 0 else items[0].quantity + CartTotalItems(items[1..])
  }

  /** Cart.total_price */
  function CartTotalPrice(items: seq<CartItem>): (t: Cents)
    ensures items == [] ==> t == 0
  {
    if items == [] then 0 else CartItemTotal(items[0]) + CartTotalPrice(items[1..])
  }

  /** A one-line cart counts that line's quantity and costs its total;
      with CartTotalsAppend this fixes both totals as sums over the lines. */
  lemma CartTotalsSingle(x: CartItem)
    ensures CartTotalItems([x]) == x.quantity
    ensures CartTotalPrice([x]) == CartItemTotal(x)
  {
    assert [x][1..] == [];
  }

  /** Adding lines to a cart adds their counts and prices. */
  lemma {:induction false} CartTotalsAppend(a: seq<CartItem>, b: seq<CartItem>)
    ensures CartTotalItems(a + b) == CartTotalItems(a) + CartTotalItems(b)
    ensures CartTotalPrice(a + b) == CartTotalPrice(a) + CartTotalPrice(b)
  {
    if a != [] {
      assert (a + b)[0] == a[0];
      assert (a + b)[1..] == a[1..] + b;
      CartTotalsAppend(a[1..], b);
    } else {
      assert a + b == b;
    }
  }

  /** Every line holds at least one unit (MinValueValidator(1)), so the
      item count is at least the number of lines; with non-negative prices
      the total is not negative. */
  lemma {:induction false} CartTotalsBounds(items: seq<CartItem>)
    requires forall i :: 0 <= i < |items| ==> items[i].quantity >= 1
    ensures CartTotalItems(items) >= |items|
    ensures (forall i :: 0 <= i < |items| ==> items[i].product.price >= 0) ==> CartTotalPrice(items) >= 0
  {
    if items != [] {
      CartTotalsBounds(items[1..]);
    }
  }

  /** Order.grand_total */
  function GrandTotal(o: Order): Cents {
    o.totalAmount + o.shippingCost
  }

  /** Category.save: a missing slug is filled in from the name. */
  function SaveCategory(c: Category, slugify: string -> string): (r: Category)
    ensures r.name == c.name
    ensures c.slug != "" ==> r == c
    ensures c.slug == "" ==> r.slug == slugify(c.name)
  {
    if c.slug == "" then c.(slug := slugify(c.name)) else c
  }

  /** Saving a category twice is saving it once, as long as the slug
      function gives a non-empty slug. */
  lemma SaveCategoryIdempotent(c: Category, slugify: string -> string)
    requires slugify(c.name) != ""
    ensures SaveCategory(SaveCategory(c, slugify), slugify) == SaveCategory(c, slugify)
    ensures SaveCategory(c, slugify).slug != ""
  {
  }

  // ---------------------------------------------------------------------
  // ShippingAddress.save: one default address per user
  // ---------------------------------------------------------------------

  predicate OneDefaultPerUser(rows: map<nat, ShippingAddress>) {
    forall i, j :: i in rows && j in rows && rows[i].isDefault && rows[j].isDefault && rows[i].user == rows[j].user ==> i == j
  }

  /** The table after saving address a under id: when a is the default,
      every default address of a's user is cleared first. */
  function SaveAddress(rows: map<nat, ShippingAddress>, id: nat, a: ShippingAddress): (r: map<nat, ShippingAddress>)
    ensures r.Keys == rows.Keys + {id} && r[id] == a
    ensures forall k :: k in rows && k != id && !(a.isDefault && rows[k].user == a.user) ==> r[k] == rows[k]
    ensures forall k :: k in rows && k != id ==> r[k].(isDefault := rows[k].isDefault) == rows[k]
  {
    var cleared := if a.isDefault then
      map k | k in rows :: if rows[k].user == a.user then rows[k].(isDefault := false) else rows[k]
    else rows;
    cleared[id := a]
  }

  /** After saving a default address it is its user's only default. */
  lemma SavedDefaultIsOnlyDefault(rows: map<nat, ShippingAddress>, id: nat, a: ShippingAddress)
    requires a.isDefault
    ensures var r := SaveAddress(rows, id, a);
      forall k :: k in r && r[k].user == a.user && r[k].isDefault ==> k == id
  {
  }

  /** Saving keeps the table at one default address per user. */
  lemma SaveAddressKeepsOneDefault(rows: map<nat, ShippingAddress>, id: nat, a: ShippingAddress)
    requires OneDefaultPerUser(rows)
    ensures OneDefaultPerUser(SaveAddress(rows, id, a))
  {
    var r := SaveAddress(rows, id, a);
    forall i, j | i in r && j in r && r[i].isDefault && r[j].isDefault && r[i].user == r[j].user
      ensures i == j
    {
      if i != id && j != id {
        assert r[i] == rows[i] && r[j] == rows[j];
      }
    }
  }

  /** The address table; save() writes through this. */
  class AddressBook {
    var rows: map<nat, ShippingAddress>

    constructor()
      ensures rows == map[]
    {
      rows := map[];
    }

    /** ShippingAddress.save */
    method Save(id: nat, a: ShippingAddress)
      modifies this
      ensures rows == SaveAddress(old(rows), id, a)
    {
      if a.isDefault {
        rows := map k | k in rows :: if rows[k].user == a.user then rows[k].(isDefault := false) else rows[k];
      }
      rows := rows[id := a];
    }
  }

  // ---------------------------------------------------------------------
  // ProductImage.save: one primary image per product
  // ---------------------------------------------------------------------

  predicate OnePrimaryPerProduct(rows: map<nat, ProductImage>) {
    forall i, j :: i in rows && j in rows && rows[i].isPrimary && rows[j].isPrimary && rows[i].product == rows[j].product ==> i == j
  }

  /** The table after saving image m under id: when m is primary, every
      primary image of the same product is demoted first. */
  function SaveImage(rows: map<nat, ProductImage>, id: nat, m: ProductImage): (r: map<nat, ProductImage>)
    ensures r.Keys == rows.Keys + {id} && r[id] == m
    ensures forall k :: k in rows && k != id && !(m.isPrimary && rows[k].product == m.product) ==> r[k] == rows[k]
    ensures forall k :: k in rows && k != id ==> r[k].(isPrimary := rows[k].isPrimary) == rows[k]
  {
    var cleared := if m.isPrimary then
      map k | k in rows :: if rows[k].product == m.product then rows[k].(isPrimary := false) else rows[k]
    else rows;
    cleared[id := m]
  }

  /** After saving a primary image it is its product's only primary one. */
  lemma SavedPrimaryIsOnlyPrimary(rows: map<nat, ProductImage>, id: nat, m: ProductImage)
    requires m.isPrimary
    ensures var r := SaveImage(rows, id, m);
      forall k :: k in r && r[k].product == m.product && r[k].isPrimary ==> k == id
  {
  }

  /** Saving keeps the table at one primary image per product. */
  lemma SaveImageKeepsOnePrimary(rows: map<nat, ProductImage>, id: nat, m: ProductImage)
    requires OnePrimaryPerProduct(rows)
    ensures OnePrimaryPerProduct(SaveImage(rows, id, m))
  {
    var r := SaveImage(rows, id, m);
    forall i, j | i in r && j in r && r[i].isPrimary && r[j].isPrimary && r[i].product == r[j].product
      ensures i == j
    {
      if i != id && j != id {
        assert r[i] == rows[i] && r[j] == rows[j];
      }
    }
  }

  /** The product image table. */
  class ImageGallery {
    var rows: map<nat, ProductImage>

    constructor()
      ensures rows == map[]
    {
      rows := map[];
    }

    /** ProductImage.save */
    method Save(id: nat, m: ProductImage)
      modifies this
      ensures rows == SaveImage(old(rows), id, m)
    {
      if m.isPrimary {
        rows := map k | k in rows :: if rows[k].product == m.product then rows[k].(isPrimary := false) else rows[k];
      }
      rows := rows[id := m];
    }
  }

  // ---------------------------------------------------------------------
  // The user table
  // ---------------------------------------------------------------------

  /** username and email are unique columns of the user table. */
  predicate UniqueColumns(rows: map<UserId, User>) {
    forall i, j :: i in rows && j in rows && i != j ==>
      rows[i].username != rows[j].username && rows[i].email != rows[j].email
  }

  /** The user table, with the next primary key the database hands out. */
  class UserTable {
    var rows: map<UserId, User>
    var nextId: UserId

    constructor()
      ensures rows == map[] && nextId == 1
    {
      rows := map[];
      nextId := 1;
    }

    /** Every key was handed out before nextId. */
    predicate Valid()
      reads this
    {
      forall k :: k in rows ==> k < nextId
    }
  }
}
