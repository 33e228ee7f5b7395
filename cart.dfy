/** Cart engine: cart lines, the lookups and the removal filter the cart
    handlers use, and the two folds behind the item counter and the total. */
module Cart {
  import opened Wrappers
  import Seqs
  import Catalog

  /** A cart line. `title`, `price` (cents) and `image` are copied from the
      product when the line is created and never refreshed; `id` is the
      product's id. */
  datatype Line = Line(id: int, title: string, price: int, image: string, quantity: int)

  /** What a cart handler reports: the success message it shows, the refusal
      message it shows, or (`NoLine`, `NoProduct`) the silent early return. */
  datatype Outcome = Added | Incremented | Updated | Removed | NoLine | NoProduct | OutOfStock | StockLimit

  /** The line `addToCart` creates for a product not yet in the cart. */
  function NewLine(p: Catalog.Product): (l: Line)
    ensures l.id == p.id && l.quantity == 1
    ensures l.title == p.title && l.price == p.price && l.image == p.image
  {
    Line(p.id, p.title, p.price, p.image, 1)
  }

  /** Index of the first line for this product. */
  function LineIndex(cart: seq<Line>, id: int): (k: Option<nat>)
    ensures k.Some? ==> k.value < |cart| && cart[k.value].id == id
    ensures k.Some? ==> forall j :: 0 <= j < k.value ==> cart[j].id != id
    ensures k.None? ==> forall j :: 0 <= j < |cart| ==> cart[j].id != id
  {
    Seqs.FindFirst(cart, (l: Line) => l.id == id)
  }

  /** `removeFromCart`'s filter: every line of this product is dropped, the
      other lines stay in their order. */
  function RemoveLines(cart: seq<Line>, id: int): (r: seq<Line>)
    ensures |r| <= |cart|
    ensures forall l :: l in r ==> l in cart && l.id != id
    ensures forall l :: l in cart && l.id != id ==> l in r
    ensures Seqs.SubsequenceOf(r, cart)
  {
    Seqs.Filter(cart, (l: Line) => l.id != id)
  }

  /** Removing the same product twice leaves the cart as removing it once. */
  lemma RemoveLinesIdempotent(cart: seq<Line>, id: int)
    ensures RemoveLines(RemoveLines(cart, id), id) == RemoveLines(cart, id)
  {
    Seqs.FilterIdempotent(cart, (l: Line) => l.id != id);
  }

  /** Removal keeps every other line as many times as it occurs, and no line of this product. */
  lemma RemoveLinesCounts(cart: seq<Line>, id: int)
    ensures forall l :: l in cart ==>
              multiset(RemoveLines(cart, id))[l] == if l.id != id then multiset(cart)[l] else 0
  {
    Seqs.FilterCounts(cart, (l: Line) => l.id != id);
  }

  /** Removing a product that has no line leaves the cart as it was. */
  lemma RemoveAbsentLines(cart: seq<Line>, id: int)
    requires forall j :: 0 <= j < |cart| ==> cart[j].id != id
    ensures RemoveLines(cart, id) == cart
  {
    Seqs.FilterKeepsAll(cart, (l: Line) => l.id != id);
  }

  /** No two lines are for the same product. */
  ghost predicate UniqueIds(cart: seq<Line>) {
    forall i, j :: 0 <= i < j < |cart| ==> cart[i].id != cart[j].id
  }

  /** The shape every cart handler keeps: one line per product, each with a
      positive quantity. */
  ghost predicate WellFormed(cart: seq<Line>) {
    UniqueIds(cart) && forall i :: 0 <= i < |cart| ==> cart[i].quantity >= 1
  }

  // ---------------------------------------------------------------------------
  // Folds

  /** `updateCartCount`: the sum of the line quantities. */
  function Count(cart: seq<Line>): (n: int)
    ensures (forall i :: 0 <= i < |cart| ==> cart[i].quantity >= 1) ==> n >= |cart|
  {
    if cart == [] then 0 else cart[0].quantity + Count(cart[1..])
  }

  /** `updateCartTotal`: the sum of `price * quantity` over the lines, using
      each line's own copied price. */
  function Total(cart: seq<Line>): (t: int)
    ensures (forall i :: 0 <= i < |cart| ==> cart[i].price >= 0 && cart[i].quantity >= 0) ==> t >= 0
  {
    if cart == [] then 0 else cart[0].price * cart[0].quantity + Total(cart[1..])
  }

  /** A line pushed at the end adds its quantity to the count and its
      subtotal to the total. */
  lemma {:induction false} AppendLine(cart: seq<Line>, l: Line)
    ensures Count(cart + [l]) == Count(cart) + l.quantity
    ensures Total(cart + [l]) == Total(cart) + l.price * l.quantity
  {
    if cart != [] {
      assert (cart + [l])[1..] == cart[1..] + [l];
      AppendLine(cart[1..], l);
    }
  }

  /** Changing one line's quantity replaces its quantity in the count. */
  lemma {:induction false} CountSetQuantity(cart: seq<Line>, k: nat, q: int)
    requires k < |cart|
    ensures Count(cart[k := cart[k].(quantity := q)]) == Count(cart) - cart[k].quantity + q
  {
    var c' := cart[k := cart[k].(quantity := q)];
    if k == 0 {
      assert c'[1..] == cart[1..];
    } else {
      assert c'[1..] == cart[1..][k - 1 := cart[k].(quantity := q)];
      CountSetQuantity(cart[1..], k - 1, q);
    }
  }

  /** Changing one line's quantity replaces its subtotal in the total. */
  lemma {:induction false} TotalSetQuantity(cart: seq<Line>, k: nat, q: int)
    requires k < |cart|
    ensures Total(cart[k := cart[k].(quantity := q)]) == Total(cart) - cart[k].price * cart[k].quantity + cart[k].price * q
  {
    var c' := cart[k := cart[k].(quantity := q)];
    if k == 0 {
      assert c'[1..] == cart[1..];
    } else {
      assert c'[1..] == cart[1..][k - 1 := cart[k].(quantity := q)];
      TotalSetQuantity(cart[1..], k - 1, q);
    }
  }

  /** One more unit of a line adds one to the count and that line's copied
      price to the total. */
  lemma IncrementLine(cart: seq<Line>, k: nat)
    requires k < |cart|
    ensures Count(cart[k := cart[k].(quantity := cart[k].quantity + 1)]) == Count(cart) + 1
    ensures Total(cart[k := cart[k].(quantity := cart[k].quantity + 1)]) == Total(cart) + cart[k].price
  {
    CountSetQuantity(cart, k, cart[k].quantity + 1);
    TotalSetQuantity(cart, k, cart[k].quantity + 1);
    MulSucc(cart[k].price, cart[k].quantity);
  }

  lemma MulSucc(p: int, q: int)
    ensures p * (q + 1) == p * q + p
  {
  }

  /** Removing the one line of a product takes its quantity off the count and
      its subtotal off the total. */
  lemma {:induction false} RemoveLine(cart: seq<Line>, k: nat)
    requires UniqueIds(cart) && k < |cart|
    ensures Count(RemoveLines(cart, cart[k].id)) == Count(cart) - cart[k].quantity
    ensures Total(RemoveLines(cart, cart[k].id)) == Total(cart) - cart[k].price * cart[k].quantity
  {
    var id := cart[k].id;
    var rest := cart[1..];
    assert UniqueIds(rest) by {
      forall i, j | 0 <= i < j < |rest| ensures rest[i].id != rest[j].id {
        assert rest[i] == cart[i + 1] && rest[j] == cart[j + 1];
      }
    }
    if k == 0 {
      forall j | 0 <= j < |rest| ensures rest[j].id != id {
        assert rest[j] == cart[j + 1];
      }
      RemoveAbsentLines(rest, id);
      assert RemoveLines(cart, id) == RemoveLines(rest, id);
    } else {
      assert rest[k - 1] == cart[k];
      RemoveLine(rest, k - 1);
      assert cart[0].id != id;
      assert RemoveLines(cart, id) == [cart[0]] + RemoveLines(rest, id);
    }
  }

  /** A new line for a product not yet in the cart, with a positive quantity,
      keeps the cart well formed. */
  lemma AppendKeepsWellFormed(cart: seq<Line>, l: Line)
    requires WellFormed(cart) && l.quantity >= 1
    requires forall j :: 0 <= j < |cart| ==> cart[j].id != l.id
    ensures WellFormed(cart + [l])
  {
    var r := cart + [l];
    forall i, j | 0 <= i < j < |r| ensures r[i].id != r[j].id {
      assert r[i] == cart[i];
    }
  }

  /** Setting one line's quantity to any positive value keeps the cart well formed. */
  lemma SetQuantityKeepsWellFormed(cart: seq<Line>, k: nat, q: int)
    requires WellFormed(cart) && k < |cart| && q >= 1
    ensures WellFormed(cart[k := cart[k].(quantity := q)])
  {
  }

  /** Removing a product keeps at most one line per product. */
  lemma {:induction false} RemoveLinesKeepsUniqueIds(cart: seq<Line>, id: int)
    requires UniqueIds(cart)
    ensures UniqueIds(RemoveLines(cart, id))
  {
    if cart != [] {
      var rest := cart[1..];
      assert UniqueIds(rest) by {
        forall i, j | 0 <= i < j < |rest| ensures rest[i].id != rest[j].id {
          assert rest[i] == cart[i + 1] && rest[j] == cart[j + 1];
        }
      }
      RemoveLinesKeepsUniqueIds(rest, id);
      var tail := RemoveLines(rest, id);
      if cart[0].id != id {
        var r := RemoveLines(cart, id);
        assert r == [cart[0]] + tail;
        forall j | 0 < j < |r| ensures cart[0].id != r[j].id {
          assert r[j] in rest;
          var m :| 0 <= m < |rest| && rest[m] == r[j];
          assert cart[m + 1] == r[j];
        }
        forall i, j | 0 <= i < j < |r| ensures r[i].id != r[j].id {
          if 0 < i {
            assert r[i] == tail[i - 1] && r[j] == tail[j - 1];
          }
        }
      }
    }
  }

  /** Removing a product keeps the cart well formed. */
  lemma RemoveLinesKeepsWellFormed(cart: seq<Line>, id: int)
    requires WellFormed(cart)
    ensures WellFormed(RemoveLines(cart, id))
  {
    RemoveLinesKeepsUniqueIds(cart, id);
    var r := RemoveLines(cart, id);
    forall i | 0 <= i < |r| ensures r[i].quantity >= 1 {
      assert r[i] in cart;
    }
  }
}
