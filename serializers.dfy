/** The computed fields of core/serializers.py: the product discount (which
    truncates where the model rounds), the line and order totals, and the
    list/detail difference in a product's representation. */
module Serializers {
  import opened Wrappers
  import opened Money
  import opened Json
  import opened Models
  import Form

  /** ProductSerializer.get_discount_percentage: int() of the percentage
      saved, or 0. */
  function SerializerDiscount(p: Product): (r: int)
    ensures !HasDiscount(p.price, p.compareAtPrice) ==> r == 0
    ensures HasDiscount(p.price, p.compareAtPrice) ==>
      var nd := DiscountRatio(p.price, p.compareAtPrice.value);
      Abs(r) * nd.1 <= Abs(nd.0) < (Abs(r) + 1) * nd.1 && (nd.0 >= 0 ==> r >= 0) && (nd.0 <= 0 ==> r <= 0)
  {
    if HasDiscount(p.price, p.compareAtPrice) then
      var nd := DiscountRatio(p.price, p.compareAtPrice.value);
      TruncDiv(nd.0, nd.1)
    else 0
  }

  /** The serializer never shows more than the model's discount, and at
      most one point less, whenever the compare-at price is positive. */
  lemma SerializerDiscountBelowModel(p: Product)
    requires p.compareAtPrice.Some? ==> p.compareAtPrice.value > 0
    ensures SerializerDiscount(p) <= DiscountPercentage(p) <= SerializerDiscount(p) + 1
  {
    if HasDiscount(p.price, p.compareAtPrice) {
      var nd := DiscountRatio(p.price, p.compareAtPrice.value);
      TruncNearRound(nd.0, nd.1);
    }
  }

  /** The two can differ: at price 1.00 against 3.00 the model rounds
      66.67 up to 67 and the serializer shows 66. */
  lemma SerializerDiscountDiffers()
    ensures var p := Product(1, "", 100, Some(300), "", 0, true, {}, {});
      DiscountPercentage(p) == 67 && SerializerDiscount(p) == 66
  {
    var p := Product(1, "", 100, Some(300), "", 0, true, {}, {});
    assert DiscountRatio(100, 300) == (20000, 300);
    assert RoundMagnitude(20000, 300) == 67;
  }

  /** OrderItemSerializer.get_total_price: quantity times the stored price. */
  function OrderItemLineTotal(item: OrderItem): (t: Cents)
    ensures t == OrderItemTotal(item)
  {
    item.quantity * item.price
  }

  /** CartItemSerializer.get_total_price: quantity times the live price. */
  function CartItemLineTotal(item: CartItem): (t: Cents)
    ensures t == CartItemTotal(item)
  {
    item.quantity * item.product.price
  }

  /** OrderSerializer.get_grand_total */
  function OrderGrandTotal(o: Order): (t: Cents)
    ensures t == GrandTotal(o)
  {
    o.totalAmount + o.shippingCost
  }

  /** dict.pop(key, None): the members without the key, in their order. */
  function RemoveKey(ms: seq<(string, Json)>, key: string): (r: seq<(string, Json)>)
    ensures |r| <= |ms|
    ensures KeySet(r) == KeySet(ms) - {key}
    ensures forall k :: k != key ==> Lookup(r, k) == Lookup(ms, k)
    ensures DistinctKeys(ms) ==> DistinctKeys(r)
  {
    if ms == [] then []
    else
      var rest := RemoveKey(ms[1..], key);
      KeySetCons(ms[0], ms[1..]);
      if ms[0].0 == key then rest
      else
        KeySetCons(ms[0], rest);
        [ms[0]] + rest
  }

  /** ProductSerializer.to_representation: the detail view (a truthy pk
      among the URL arguments) keeps "images"; every other request drops
      that key and nothing else. */
  function ToRepresentation(rep: seq<(string, Json)>, pk: Form.Field): (r: seq<(string, Json)>)
    ensures Form.Truthy(pk) ==> r == rep
    ensures !Form.Truthy(pk) ==> KeySet(r) == KeySet(rep) - {"images"}
    ensures forall k :: k != "images" ==> Lookup(r, k) == Lookup(rep, k)
    ensures DistinctKeys(rep) ==> DistinctKeys(r)
  {
    if Form.Truthy(pk) then rep else RemoveKey(rep, "images")
  }

  /** Dropping "images" from a list entry is all that separates it from the
      detail entry: putting the key back at its place restores it. */
  lemma {:induction false} RemoveKeyRestores(ms: seq<(string, Json)>, i: nat)
    requires DistinctKeys(ms) && i < |ms|
    ensures RemoveKey(ms, ms[i].0) == ms[..i] + ms[i + 1..]
  {
    if i == 0 {
      assert ms[..0] + ms[1..] == ms[1..];
      RemoveKeyAbsent(ms[1..], ms[0].0);
    } else {
      assert ms[1..][i - 1] == ms[i];
      RemoveKeyRestores(ms[1..], i - 1);
      assert ms[1..][..i - 1] + ms[1..][i..] == ms[1..i] + ms[i + 1..];
      assert ms[..i] + ms[i + 1..] == [ms[0]] + (ms[1..i] + ms[i + 1..]);
    }
  }

  lemma {:induction false} RemoveKeyAbsent(ms: seq<(string, Json)>, key: string)
    requires forall j :: 0 <= j < |ms| ==> ms[j].0 != key
    ensures RemoveKey(ms, key) == ms
  {
    if ms != [] {
      RemoveKeyAbsent(ms[1..], key);
      assert ms == [ms[0]] + ms[1..];
    }
  }
}
