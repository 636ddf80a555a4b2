/**
 * The cart store of the ordering page. The page keeps `cart` as a plain object
 * from item name to `{price, qty}`. A JavaScript object is a map together with
 * the order in which its keys were inserted (the order `for ... in` and
 * `Object.keys` list them), so a cart is modelled as exactly that: the key
 * order and the map. Prices are whole numbers of the smallest currency unit.
 */
module CartStore {
  import opened Common

  /** What the cart object stores under an item name. */
  datatype Entry = Entry(price: int, qty: int)

  /** One item of a placed order: `{ name, price, qty }`. */
  datatype Line = Line(name: string, price: int, qty: int)

  /** The cart object: its keys in insertion order and the entry stored under each. */
  datatype Cart = Cart(keys: seq<string>, entries: map<string, Entry>)

  /** `{}`: the cart the page starts with and resets to after an order is placed. */
  const Empty: Cart := Cart([], map[])

  /** No name occurs twice. */
  predicate Distinct(ns: seq<string>)
  {
    forall i, j :: 0 <= i < j < |ns| ==> ns[i] != ns[j]
  }

  /**
   * The shape every cart the page builds has: each key listed once, the listed
   * keys are exactly the stored ones, and every stored quantity is at least 1
   * (a line whose quantity drops to 0 is deleted).
   */
  ghost predicate Valid(c: Cart)
  {
    && Distinct(c.keys)
    && (forall n :: n in c.keys <==> n in c.entries)
    && (forall n :: n in c.entries ==> c.entries[n].qty >= 1)
  }

  /** Every item other than `name` is in `r` exactly when it is in `c`, with the same entry. */
  ghost predicate SameExcept(c: Cart, r: Cart, name: string)
  {
    forall n :: n != name ==> (n in r.entries <==> n in c.entries) && (n in r.entries ==> r.entries[n] == c.entries[n])
  }

  /** An entry's share of the total: `item.price * item.qty`. */
  function Share(e: Entry): int
  {
    e.price * e.qty
  }

  /** The shares of the entries listed in `keys`, added up in that order. */
  function Sum(keys: seq<string>, m: map<string, Entry>): int
  {
    if keys == [] then 0
    else
      var n := keys[|keys| - 1];
      Sum(keys[..|keys| - 1], m) + (if n in m then Share(m[n]) else 0)
  }

  /** What `renderCart` leaves in `total`: the sum of price times quantity over the cart. */
  function Total(c: Cart): (t: int)
    ensures c.keys == [] ==> t == 0
  {
    Sum(c.keys, c.entries)
  }

  /** `ns` with `x` taken out, the other names in their order. */
  function Without(ns: seq<string>, x: string): (r: seq<string>)
    ensures forall n :: n in r <==> n in ns && n != x
  {
    if ns == [] then []
    else
      var pre := Without(ns[..|ns| - 1], x);
      assert ns == ns[..|ns| - 1] + [ns[|ns| - 1]];
      if ns[|ns| - 1] == x then pre else pre + [ns[|ns| - 1]]
  }

  /** `cart[name].qty++`: one more unit of an item already in the cart, at its recorded price. */
  function Increment(c: Cart, name: string): (r: Cart)
    requires name in c.entries
    ensures Valid(c) ==> Valid(r)
    ensures r.keys == c.keys && SameExcept(c, r, name)
    ensures name in r.entries && r.entries[name] == Entry(c.entries[name].price, c.entries[name].qty + 1)
  {
    var e := c.entries[name];
    Cart(c.keys, c.entries[name := Entry(e.price, e.qty + 1)])
  }

  /**
   * `addToCart(name, price)`: an item already in the cart gains one unit at its
   * recorded price (the price passed in is ignored); a new item is stored with
   * quantity 1 and its key goes after all the others.
   */
  function Add(c: Cart, name: string, price: int): (r: Cart)
    ensures Valid(c) ==> Valid(r)
    ensures name in r.entries && SameExcept(c, r, name)
    ensures name in c.entries ==>
      r.keys == c.keys && r.entries[name] == Entry(c.entries[name].price, c.entries[name].qty + 1)
    ensures name !in c.entries ==> r.keys == c.keys + [name] && r.entries[name] == Entry(price, 1)
  {
    if name in c.entries then Increment(c, name)
    else
      var r := Cart(c.keys + [name], c.entries[name := Entry(price, 1)]);
      assert Valid(c) ==> Distinct(r.keys) by {
        if Valid(c) {
          assert forall i :: 0 <= i < |c.keys| ==> r.keys[i] == c.keys[i] && c.keys[i] != name;
        }
      }
      r
  }

  /** `delete cart[name]`: the item and its key are gone, the other keys keep their order; deleting an absent item changes nothing. */
  function Remove(c: Cart, name: string): (r: Cart)
    ensures Valid(c) ==> Valid(r)
    ensures name !in r.entries && name !in r.keys && SameExcept(c, r, name)
    ensures r.keys == Without(c.keys, name)
  {
    var r := Cart(Without(c.keys, name), c.entries - {name});
    assert Valid(c) ==> Distinct(r.keys) by {
      if Valid(c) {
        WithoutDistinct(c.keys, name);
      }
    }
    r
  }

  /**
   * `decrease(name)`: the item loses one unit, and is deleted when its
   * quantity is no longer positive afterwards.
   */
  function Decrement(c: Cart, name: string): (r: Cart)
    requires name in c.entries
    ensures Valid(c) ==> Valid(r)
    ensures SameExcept(c, r, name)
    ensures c.entries[name].qty - 1 <= 0 ==> name !in r.entries && r.keys == Without(c.keys, name)
    ensures c.entries[name].qty - 1 > 0 ==>
      r.keys == c.keys && name in r.entries && r.entries[name] == Entry(c.entries[name].price, c.entries[name].qty - 1)
  {
    var e := c.entries[name];
    if e.qty - 1 <= 0 then Remove(c, name)
    else Cart(c.keys, c.entries[name := Entry(e.price, e.qty - 1)])
  }

  /** A quantity typed into an item's box, as `parseInt` read it (`None` for NaN), is a positive number. */
  predicate IsPositive(value: Option<int>)
  {
    value.Some? && value.value > 0
  }

  /**
   * `updateQty(name, input)`: a missing or non-positive number deletes the item;
   * a positive number becomes its quantity.
   */
  function SetQty(c: Cart, name: string, value: Option<int>): (r: Cart)
    requires IsPositive(value) ==> name in c.entries
    ensures Valid(c) ==> Valid(r)
    ensures SameExcept(c, r, name)
    ensures !IsPositive(value) ==> name !in r.entries && r.keys == Without(c.keys, name)
    ensures IsPositive(value) ==>
      r.keys == c.keys && name in r.entries && r.entries[name] == Entry(c.entries[name].price, value.value)
  {
    if !IsPositive(value) then Remove(c, name)
    else Cart(c.keys, c.entries[name := Entry(c.entries[name].price, value.value)])
  }

  /** `{ name, price, qty }` for each key of `keys`, in that order. */
  function ItemsOf(keys: seq<string>, m: map<string, Entry>): (items: seq<Line>)
    requires forall n :: n in keys ==> n in m
    ensures |items| == |keys|
    ensures forall k :: 0 <= k < |keys| ==> items[k] == Line(keys[k], m[keys[k]].price, m[keys[k]].qty)
  {
    if keys == [] then []
    else
      var n := keys[|keys| - 1];
      ItemsOf(keys[..|keys| - 1], m) + [Line(n, m[n].price, m[n].qty)]
  }

  /** `Object.keys(cart).map(name => ({ name, price: cart[name].price, qty: cart[name].qty }))`: the items of an order. */
  function Items(c: Cart): (items: seq<Line>)
    requires Valid(c)
    ensures |items| == |c.keys|
    ensures forall k :: 0 <= k < |items| ==>
      items[k] == Line(c.keys[k], c.entries[c.keys[k]].price, c.entries[c.keys[k]].qty)
  {
    ItemsOf(c.keys, c.entries)
  }

  /** The sum of price times quantity over a list of order items. */
  function LinesTotal(items: seq<Line>): int
  {
    if items == [] then 0
    else LinesTotal(items[..|items| - 1]) + items[|items| - 1].price * items[|items| - 1].qty
  }

  // ----- what the operations do to the total -----

  /** Adding an item raises the total by its price: the recorded one if the item was there, else the given one. */
  lemma TotalAdd(c: Cart, name: string, price: int)
    requires Valid(c)
    ensures Total(Add(c, name, price)) == Total(c) + (if name in c.entries then c.entries[name].price else price)
  {
    if name in c.entries {
      TotalIncrement(c, name);
    } else {
      var m := c.entries[name := Entry(price, 1)];
      assert Add(c, name, price) == Cart(c.keys + [name], m);
      assert Sum(c.keys + [name], m) == Sum(c.keys, m) + price by {
        assert (c.keys + [name])[..|c.keys|] == c.keys;
        assert Share(Entry(price, 1)) == price;
      }
      SumAgree(c.keys, m, c.entries);
    }
  }

  /** One more unit raises the total by the item's price. */
  lemma TotalIncrement(c: Cart, name: string)
    requires Valid(c) && name in c.entries
    ensures Total(Increment(c, name)) == Total(c) + c.entries[name].price
  {
    var e := c.entries[name];
    SumUpdate(c.keys, c.entries, name, Entry(e.price, e.qty + 1));
    assert Share(Entry(e.price, e.qty + 1)) == Share(e) + e.price by {
      assert e.price * (e.qty + 1) == e.price * e.qty + e.price;
    }
  }

  /** One unit fewer lowers the total by the item's price, also when that deletes the item. */
  lemma TotalDecrement(c: Cart, name: string)
    requires Valid(c) && name in c.entries
    ensures Total(Decrement(c, name)) == Total(c) - c.entries[name].price
  {
    var e := c.entries[name];
    if e.qty - 1 <= 0 {
      TotalRemove(c, name);
      assert Share(e) == e.price by {
        assert e.qty == 1;
      }
    } else {
      SumUpdate(c.keys, c.entries, name, Entry(e.price, e.qty - 1));
      assert Share(Entry(e.price, e.qty - 1)) == Share(e) - e.price by {
        assert e.price * (e.qty - 1) == e.price * e.qty - e.price;
      }
    }
  }

  /** Deleting an item lowers the total by its price times its quantity; deleting an absent one changes nothing. */
  lemma TotalRemove(c: Cart, name: string)
    requires Valid(c)
    ensures Total(Remove(c, name)) == Total(c) - (if name in c.entries then Share(c.entries[name]) else 0)
  {
    if name in c.entries {
      SumRemove(c.keys, c.entries, name);
    } else {
      WithoutAbsent(c.keys, name);
      SumAgree(c.keys, c.entries - {name}, c.entries);
    }
  }

  /** A positive quantity replaces the item's share of the total; any other input deletes the item. */
  lemma TotalSetQty(c: Cart, name: string, value: Option<int>)
    requires Valid(c) && (IsPositive(value) ==> name in c.entries)
    ensures IsPositive(value) ==>
      Total(SetQty(c, name, value)) == Total(c) - Share(c.entries[name]) + c.entries[name].price * value.value
    ensures !IsPositive(value) ==> Total(SetQty(c, name, value)) == Total(Remove(c, name))
  {
    if IsPositive(value) {
      SumUpdate(c.keys, c.entries, name, Entry(c.entries[name].price, value.value));
    }
  }

  /** With no negative price or quantity the total is not negative. */
  lemma TotalNonNegative(c: Cart)
    requires forall n :: n in c.entries ==> c.entries[n].price >= 0 && c.entries[n].qty >= 0
    ensures Total(c) >= 0
  {
    SumNonNegative(c.keys, c.entries);
  }

  /** An order's items add up to the cart total it was placed with. */
  lemma ItemsTotal(c: Cart)
    requires Valid(c)
    ensures LinesTotal(Items(c)) == Total(c)
  {
    ItemsOfTotal(c.keys, c.entries);
  }

  /** A rejected quantity deletes the item, and entering it again changes nothing more. */
  lemma SetQtyInvalidIdempotent(c: Cart, name: string, value: Option<int>)
    requires !IsPositive(value)
    ensures SetQty(SetQty(c, name, value), name, value) == SetQty(c, name, value)
  {
    var r := SetQty(c, name, value);
    WithoutAbsent(r.keys, name);
    assert r.entries - {name} == r.entries;
  }

  // ----- facts about sums and key lists -----

  /** The sum only looks at the entries of the listed keys. */
  lemma {:induction false} SumAgree(keys: seq<string>, m1: map<string, Entry>, m2: map<string, Entry>)
    requires forall n :: n in keys ==> (n in m1 <==> n in m2) && (n in m1 ==> m1[n] == m2[n])
    ensures Sum(keys, m1) == Sum(keys, m2)
  {
    if keys != [] {
      SumAgree(keys[..|keys| - 1], m1, m2);
    }
  }

  /** A sum of shares none of which is negative is not negative. */
  lemma {:induction false} SumNonNegative(keys: seq<string>, m: map<string, Entry>)
    requires forall n :: n in m ==> m[n].price >= 0 && m[n].qty >= 0
    ensures Sum(keys, m) >= 0
  {
    if keys != [] {
      SumNonNegative(keys[..|keys| - 1], m);
      var n := keys[|keys| - 1];
      if n in m {
        assert Share(m[n]) >= 0 by {
          assert m[n].price >= 0 && m[n].qty >= 0;
        }
      }
    }
  }

  /** Replacing the entry of a listed key changes the sum by the difference of the two shares. */
  lemma {:induction false} SumUpdate(keys: seq<string>, m: map<string, Entry>, name: string, e: Entry)
    requires Distinct(keys) && name in keys && name in m
    ensures Sum(keys, m[name := e]) == Sum(keys, m) - Share(m[name]) + Share(e)
  {
    var pre, last := keys[..|keys| - 1], keys[|keys| - 1];
    assert keys == pre + [last];
    if last == name {
      assert name !in pre;
      SumAgree(pre, m[name := e], m);
    } else {
      SumUpdate(pre, m, name, e);
    }
  }

  /** Deleting a listed key and its entry lowers the sum by that entry's share. */
  lemma {:induction false} SumRemove(keys: seq<string>, m: map<string, Entry>, name: string)
    requires Distinct(keys) && name in keys && name in m
    ensures Sum(Without(keys, name), m - {name}) == Sum(keys, m) - Share(m[name])
  {
    var pre, last := keys[..|keys| - 1], keys[|keys| - 1];
    assert keys == pre + [last];
    if last == name {
      assert name !in pre;
      WithoutAbsent(pre, name);
      SumAgree(pre, m - {name}, m);
    } else {
      SumRemove(pre, m, name);
      var w := Without(pre, name);
      assert (w + [last])[..|w|] == w;
    }
  }

  /** Taking a name out of a list without repeats leaves a list without repeats. */
  lemma {:induction false} WithoutDistinct(ns: seq<string>, x: string)
    requires Distinct(ns)
    ensures Distinct(Without(ns, x))
  {
    if ns != [] {
      var pre, last := ns[..|ns| - 1], ns[|ns| - 1];
      WithoutDistinct(pre, x);
      var w := Without(pre, x);
      if last != x {
        assert last !in pre;
        assert forall i :: 0 <= i < |w| ==> (w + [last])[i] == w[i] && w[i] in pre;
      }
    }
  }

  /** Taking out a name that does not occur changes nothing. */
  lemma {:induction false} WithoutAbsent(ns: seq<string>, x: string)
    requires x !in ns
    ensures Without(ns, x) == ns
  {
    if ns != [] {
      WithoutAbsent(ns[..|ns| - 1], x);
      assert ns == ns[..|ns| - 1] + [ns[|ns| - 1]];
    }
  }

  /** The items built from a key list add up to the sum over that list. */
  lemma {:induction false} ItemsOfTotal(keys: seq<string>, m: map<string, Entry>)
    requires forall n :: n in keys ==> n in m
    ensures LinesTotal(ItemsOf(keys, m)) == Sum(keys, m)
  {
    if keys != [] {
      var pre := keys[..|keys| - 1];
      assert forall n :: n in pre ==> n in keys;
      ItemsOfTotal(pre, m);
      var items := ItemsOf(keys, m);
      assert items[..|items| - 1] == ItemsOf(pre, m);
    }
  }
}
