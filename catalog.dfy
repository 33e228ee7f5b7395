/** Catalog store: product records, the validation every stored product has
    passed, the product form, the active listing and the search filter. */
module Catalog {
  import opened Wrappers
  import opened Text
  import Seqs

  /** A catalog entry. `price` is in cents. `createdAt` is `None` where the
      source would hold `undefined`: an edit whose id no longer matches a product. */
  datatype Product = Product(
    id: int,
    title: string,
    description: string,
    category: string,
    price: int,
    stock: int,
    image: string,
    active: bool,
    createdAt: Option<string>)

  /** The values read from the product form, already parsed (`price` in cents). */
  datatype ProductForm = ProductForm(
    title: string,
    description: string,
    category: string,
    price: int,
    stock: int,
    image: string)

  // ---------------------------------------------------------------------------
  // Validation

  const TitleMessage: string := "Título deve ter entre 5 e 100 caracteres"
  const DescriptionMessage: string := "Descrição deve ter pelo menos 20 caracteres"
  const CategoryMessage: string := "Categoria é obrigatória"
  const PriceMessage: string := "Preço deve ser maior que zero"
  const StockMessage: string := "Estoque não pode ser negativo"
  const ImageMessage: string := "URL da imagem é obrigatória"

  /** The six messages, in the order the checks run. */
  const Messages: seq<string> :=
    [TitleMessage, DescriptionMessage, CategoryMessage, PriceMessage, StockMessage, ImageMessage]

  /** Check number `k` (0 to 5, in order) fails for `p`. */
  predicate Violates(p: Product, k: nat) {
    match k
    case 0 => |p.title| < 5 || |p.title| > 100
    case 1 => |p.description| < 20
    case 2 => p.category == []
    case 3 => p.price <= 0
    case 4 => p.stock < 0
    case 5 => p.image == []
    case _ => false
  }

  /** What every stored product satisfies. */
  predicate IsValidProduct(p: Product) {
    && 5 <= |p.title| <= 100
    && |p.description| >= 20
    && p.category != []
    && p.price > 0
    && p.stock >= 0
    && p.image != []
  }

  /** The messages of the failing checks among checks `k` to 5. */
  function ViolationsFrom(p: Product, k: nat): (errs: seq<string>)
    requires k <= 6
    ensures Seqs.SubsequenceOf(errs, Messages[k..])
    ensures forall j :: k <= j < 6 ==> (Messages[j] in errs <==> Violates(p, j))
    ensures forall j :: 0 <= j < k ==> Messages[j] !in errs
    decreases 6 - k
  {
    if k == 6 then []
    else
      var rest := ViolationsFrom(p, k + 1);
      assert Messages[k..][1..] == Messages[k + 1..];
      if Violates(p, k) then [Messages[k]] + rest else rest
  }

  /** `validateProduct`: the messages of the failing checks, in the fixed order
      of `Messages`; empty exactly when the product is valid. */
  function ValidateProduct(p: Product): (errs: seq<string>)
    ensures errs == [] <==> IsValidProduct(p)
    ensures Seqs.SubsequenceOf(errs, Messages)
    ensures forall k :: 0 <= k < 6 ==> (Messages[k] in errs <==> Violates(p, k))
  {
    var errs := ViolationsFrom(p, 0);
    assert Messages[0..] == Messages;
    assert errs == [] ==> forall k :: 0 <= k < 6 ==> !Violates(p, k);
    errs
  }

  // ---------------------------------------------------------------------------
  // Lookup, form, listing, search

  /** Index of the first product with this id. */
  function ProductIndex(products: seq<Product>, id: int): (k: Option<nat>)
    ensures k.Some? ==> k.value < |products| && products[k.value].id == id
    ensures k.Some? ==> forall j :: 0 <= j < k.value ==> products[j].id != id
    ensures k.None? ==> forall j :: 0 <= j < |products| ==> products[j].id != id
  {
    Seqs.FindFirst(products, (p: Product) => p.id == id)
  }

  /** The product a form submission builds: the id being edited, or a fresh
      one; text fields trimmed except the category; always active; the
      creation time of the product being edited, or now for a new one. */
  function FromForm(products: seq<Product>, editing: Option<int>, freshId: int, now: string, form: ProductForm): (p: Product)
    ensures p.active
    ensures p.id == (if editing.Some? then editing.value else freshId)
    ensures p.title == Trim(form.title) && p.description == Trim(form.description)
    ensures p.image == Trim(form.image) && p.category == form.category
    ensures p.price == form.price && p.stock == form.stock
    ensures editing.None? ==> p.createdAt == Some(now)
    ensures editing.Some? ==>
              match ProductIndex(products, editing.value)
              case Some(k) => p.createdAt == products[k].createdAt
              case None => p.createdAt == None
  {
    var id := editing.GetOr(freshId);
    var createdAt :=
      if editing.Some? then
        match ProductIndex(products, id)
        case Some(k) => products[k].createdAt
        case None => None
      else Some(now);
    Product(id, Trim(form.title), Trim(form.description), form.category,
            form.price, form.stock, Trim(form.image), true, createdAt)
  }

  /** The products shown in the listing: the active ones, in catalog order. */
  function Active(products: seq<Product>): (r: seq<Product>)
    ensures forall p :: p in r ==> p in products && p.active
    ensures forall p :: p in products && p.active ==> p in r
    ensures Seqs.SubsequenceOf(r, products)
  {
    Seqs.Filter(products, (p: Product) => p.active)
  }

  /** The listing keeps each active product as many times as it occurs, and no inactive one. */
  lemma ActiveCounts(products: seq<Product>)
    ensures forall p :: p in products ==>
              multiset(Active(products))[p] == if p.active then multiset(products)[p] else 0
  {
    Seqs.FilterCounts(products, (p: Product) => p.active);
  }

  /** The lower-cased title, description or category contains `term`. */
  predicate Matches(p: Product, term: string) {
    Contains(Lower(p.title), term) || Contains(Lower(p.description), term) || Contains(Lower(p.category), term)
  }

  /** `searchProducts`: the trimmed, lower-cased term; a blank term lists the
      active products, any other keeps the active products that match it. */
  function Search(products: seq<Product>, rawTerm: string): (r: seq<Product>)
    ensures Seqs.SubsequenceOf(r, products)
    ensures forall p :: p in r ==> p.active
    ensures IsBlank(rawTerm) ==> r == Active(products)
    ensures !IsBlank(rawTerm) ==>
              forall p :: p in products ==> (p in r <==> p.active && Matches(p, Lower(Trim(rawTerm))))
  {
    var term := Lower(Trim(rawTerm));
    if term == [] then Active(products)
    else Seqs.Filter(products, (p: Product) => p.active && Matches(p, term))
  }

  /** A search with a non-blank term keeps each matching active product as many
      times as it occurs, and nothing else. */
  lemma SearchCounts(products: seq<Product>, rawTerm: string)
    requires !IsBlank(rawTerm)
    ensures forall p :: p in products ==>
              multiset(Search(products, rawTerm))[p] ==
                if p.active && Matches(p, Lower(Trim(rawTerm))) then multiset(products)[p] else 0
  {
    var term := Lower(Trim(rawTerm));
    Seqs.FilterCounts(products, (p: Product) => p.active && Matches(p, term));
  }
}
