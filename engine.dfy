/** The store object: the four collections the page keeps in memory (users,
    products, cart, logged-in user), what the browser's storage holds, and
    one method per event handler that changes them. */
module Engine {
  import opened Wrappers
  import opened Text
  import opened Identity
  import opened Catalog
  import opened Cart

  /** The contents of the four storage keys: users, products, cart (written
      together by `saveData`) and the logged-in user (written by login and
      logout only). A missing key reads as the empty default. */
  datatype Saved = Saved(users: seq<User>, products: seq<Product>, cart: seq<Line>, session: Option<User>)

  class Store {
    var users: seq<User>
    var products: seq<Product>
    var cart: seq<Line>
    var currentUser: Option<User>
    var saved: Saved

    /** Storage holds exactly what is in memory. */
    ghost predicate InSync()
      reads this
    {
      saved == Saved(users, products, cart, currentUser)
    }

    /** The consistency the handlers keep: unique e-mails, every product valid,
        one line per product with a positive quantity. */
    ghost predicate Consistent()
      reads this
    {
      && UniqueEmails(users)
      && (forall i :: 0 <= i < |products| ==> IsValidProduct(products[i]))
      && WellFormed(cart)
    }

    /** Start-up: each collection is what its key holds, or empty (no user)
        when the key is missing. */
    constructor Load(storedUsers: Option<seq<User>>, storedProducts: Option<seq<Product>>,
                     storedCart: Option<seq<Line>>, storedSession: Option<User>)
      ensures users == storedUsers.GetOr([]) && products == storedProducts.GetOr([])
      ensures cart == storedCart.GetOr([]) && currentUser == storedSession
      ensures InSync()
    {
      users := storedUsers.GetOr([]);
      products := storedProducts.GetOr([]);
      cart := storedCart.GetOr([]);
      currentUser := storedSession;
      saved := Saved(storedUsers.GetOr([]), storedProducts.GetOr([]), storedCart.GetOr([]), storedSession);
    }

    /** `saveData`: writes users, products and cart; the session key is untouched. */
    method SaveData()
      modifies this`saved
      ensures saved == Saved(users, products, cart, old(saved.session))
    {
      saved := Saved(users, products, cart, saved.session);
    }

    // -------------------------------------------------------------------------
    // Users

    /** `handleUserRegistration`: name and e-mail are trimmed, the checks run in
        order, and an accepted user is appended and saved. */
    method Register(rawName: string, rawEmail: string, password: string, freshId: int, now: string)
      returns (r: Registration)
      modifies this`users, this`saved
      ensures r == CheckRegistration(old(users), Trim(rawName), Trim(rawEmail), password)
      ensures r.Accepted? ==> users == old(users) + [User(freshId, Trim(rawName), Trim(rawEmail), password, now)]
      ensures r.Accepted? ==> saved == Saved(users, products, cart, old(saved.session))
      ensures r.Rejected? ==> users == old(users) && saved == old(saved)
      ensures old(InSync()) ==> InSync()
      ensures old(Consistent()) ==> Consistent()
    {
      var name := Trim(rawName);
      var email := Trim(rawEmail);
      r := CheckRegistration(users, name, email, password);
      if r.Rejected? {
        return;
      }
      AppendUser(User(freshId, name, email, password, now));
    }

    /** The accepting end of registration: appends a user whose e-mail is not
        yet taken and saves. */
    method AppendUser(u: User)
      requires !EmailExists(users, u.email)
      modifies this`users, this`saved
      ensures users == old(users) + [u]
      ensures saved == Saved(users, products, cart, old(saved.session))
      ensures old(InSync()) ==> InSync()
      ensures old(Consistent()) ==> Consistent()
    {
      AppendNewEmailKeepsUnique(users, u);
      users := users + [u];
      SaveData();
    }

    /** `handleUserLogin`: the first user whose e-mail (trimmed) and password
        both match exactly becomes the logged-in user, and the session key is written. */
    method Login(rawEmail: string, password: string) returns (ok: bool)
      modifies this`currentUser, this`saved
      ensures ok <==> exists i :: 0 <= i < |users| && users[i].email == Trim(rawEmail) && users[i].password == password
      ensures ok ==> currentUser == Some(users[CredentialIndex(users, Trim(rawEmail), password).value])
      ensures ok ==> saved == old(saved).(session := currentUser)
      ensures !ok ==> currentUser == old(currentUser) && saved == old(saved)
      ensures old(InSync()) ==> InSync()
      ensures old(Consistent()) ==> Consistent()
    {
      var email := Trim(rawEmail);
      CredentialFound(users, email, password);
      var k := CredentialIndex(users, email, password);
      ok := k.Some?;
      if ok {
        currentUser := Some(users[k.value]);
        saved := saved.(session := currentUser);
      }
    }

    /** The logout branch of `toggleUserMenu`: only with a logged-in user and
        a confirmed dialog; clears the user and the session key. */
    method Logout(confirmed: bool) returns (loggedOut: bool)
      modifies this`currentUser, this`saved
      ensures loggedOut <==> old(currentUser).Some? && confirmed
      ensures loggedOut ==> currentUser == None && saved == old(saved).(session := None)
      ensures !loggedOut ==> currentUser == old(currentUser) && saved == old(saved)
      ensures old(InSync()) ==> InSync()
      ensures old(Consistent()) ==> Consistent()
    {
      loggedOut := currentUser.Some? && confirmed;
      if loggedOut {
        currentUser := None;
        saved := saved.(session := None);
      }
    }

    /** `editUser`: with the dialog's answer (`None` when cancelled), renames
        the first user with this id to the trimmed answer unless it is blank. */
    method RenameUser(userId: int, answer: Option<string>) returns (renamed: bool)
      modifies this`users, this`saved
      ensures renamed <==> UserIndex(old(users), userId).Some? && answer.Some? && !IsBlank(answer.value)
      ensures renamed ==>
                var k := UserIndex(old(users), userId).value;
                && users == old(users)[k := old(users)[k].(name := Trim(answer.value))]
                && saved == Saved(users, products, cart, old(saved.session))
      ensures !renamed ==> users == old(users) && saved == old(saved)
      ensures old(InSync()) ==> InSync()
      ensures old(Consistent()) ==> Consistent()
    {
      var k := UserIndex(users, userId);
      if k.None? || answer.None? {
        return false;
      }
      var name := Trim(answer.value);
      if name == [] {
        return false;
      }
      SetUserName(k.value, name);
      renamed := true;
    }

    /** Renames user `k` in place and saves; e-mails are untouched. */
    method SetUserName(k: nat, name: string)
      requires k < |users|
      modifies this`users, this`saved
      ensures users == old(users)[k := old(users)[k].(name := name)]
      ensures saved == Saved(users, products, cart, old(saved.session))
      ensures old(InSync()) ==> InSync()
      ensures old(Consistent()) ==> Consistent()
    {
      ghost var before := users;
      users := users[k := users[k].(name := name)];
      assert forall i :: 0 <= i < |users| ==> users[i].email == before[i].email;
      SaveData();
    }

    /** `deleteUser`: once confirmed, every user with this id is removed and
        the rest saved. The logged-in user and the cart are left as they are. */
    method DeleteUser(userId: int, confirmed: bool)
      modifies this`users, this`saved
      ensures confirmed ==> users == WithoutUser(old(users), userId)
      ensures confirmed ==> saved == Saved(users, products, cart, old(saved.session))
      ensures !confirmed ==> users == old(users) && saved == old(saved)
      ensures old(InSync()) ==> InSync()
      ensures old(Consistent()) ==> Consistent()
    {
      if confirmed {
        if UniqueEmails(users) {
          WithoutUserKeepsEmailsUnique(users, userId);
        }
        users := WithoutUser(users, userId);
        SaveData();
      }
    }

    // -------------------------------------------------------------------------
    // Products

    /** `handleProductSubmit`: builds the product from the form, refuses it with
        the validation messages, or else replaces the product with the same id
        where it stands or appends it, and saves. */
    method SubmitProduct(editing: Option<int>, freshId: int, now: string, form: ProductForm)
      returns (errs: seq<string>)
      modifies this`products, this`saved
      ensures errs == ValidateProduct(FromForm(old(products), editing, freshId, now, form))
      ensures errs != [] ==> products == old(products) && saved == old(saved)
      ensures errs == [] ==>
                var p := FromForm(old(products), editing, freshId, now, form);
                match ProductIndex(old(products), p.id)
                case Some(k) => products == old(products)[k := p]
                case None => products == old(products) + [p]
      ensures errs == [] ==> saved == Saved(users, products, cart, old(saved.session))
      ensures old(InSync()) ==> InSync()
      ensures old(Consistent()) ==> Consistent()
    {
      var p := FromForm(products, editing, freshId, now, form);
      errs := ValidateProduct(p);
      if errs != [] {
        return;
      }
      PutProduct(p);
    }

    /** The accepting end of `handleProductSubmit`: a valid product replaces
        the first one with its id, or is appended when there is none; then saves. */
    method PutProduct(p: Product)
      requires IsValidProduct(p)
      modifies this`products, this`saved
      ensures match ProductIndex(old(products), p.id)
              case Some(k) => products == old(products)[k := p]
              case None => products == old(products) + [p]
      ensures saved == Saved(users, products, cart, old(saved.session))
      ensures old(InSync()) ==> InSync()
      ensures old(Consistent()) ==> Consistent()
    {
      var k := ProductIndex(products, p.id);
      if k.Some? {
        products := products[k.value := p];
      } else {
        products := products + [p];
      }
      SaveData();
    }

    /** `deleteProduct`: once confirmed, the first product with this id is
        marked inactive and saved; nothing happens when there is none. */
    method DeleteProduct(productId: int, confirmed: bool) returns (deleted: bool)
      modifies this`products, this`saved
      ensures deleted <==> confirmed && ProductIndex(old(products), productId).Some?
      ensures deleted ==>
                var k := ProductIndex(old(products), productId).value;
                && products == old(products)[k := old(products)[k].(active := false)]
                && saved == Saved(users, products, cart, old(saved.session))
      ensures !deleted ==> products == old(products) && saved == old(saved)
      ensures old(InSync()) ==> InSync()
      ensures old(Consistent()) ==> Consistent()
    {
      var k := ProductIndex(products, productId);
      deleted := confirmed && k.Some?;
      if deleted {
        products := products[k.value := products[k.value].(active := false)];
        SaveData();
      }
    }

    // -------------------------------------------------------------------------
    // Cart

    /** `addToCart`: looks the product up by id alone (an inactive product can
        be added), refuses when its stock is not positive, then either adds one
        to the product's line while that stays within stock or appends a new
        line of quantity 1 copied from the product. */
    method AddToCart(productId: int) returns (outcome: Outcome)
      modifies this`cart, this`saved
      ensures ProductIndex(old(products), productId).None? ==> outcome == NoProduct
      ensures ProductIndex(old(products), productId).Some? ==>
                var p := old(products)[ProductIndex(old(products), productId).value];
                && (p.stock <= 0 ==> outcome == OutOfStock)
                && (p.stock > 0 && LineIndex(old(cart), productId).None? ==>
                      && outcome == Added
                      && cart == old(cart) + [NewLine(p)]
                      && Total(cart) == old(Total(cart)) + p.price)
                && (p.stock > 0 && LineIndex(old(cart), productId).Some? ==>
                      var k := LineIndex(old(cart), productId).value;
                      if old(cart)[k].quantity >= p.stock then outcome == StockLimit
                      else outcome == Incremented
                           && cart == old(cart)[k := old(cart)[k].(quantity := old(cart)[k].quantity + 1)]
                           && cart[k].quantity <= p.stock
                           && Total(cart) == old(Total(cart)) + old(cart)[k].price)
      ensures outcome in {NoProduct, OutOfStock, StockLimit} ==> cart == old(cart) && saved == old(saved)
      ensures outcome in {Added, Incremented} ==>
                && Count(cart) == old(Count(cart)) + 1
                && saved == Saved(users, products, cart, old(saved.session))
      ensures old(InSync()) ==> InSync()
      ensures old(Consistent()) ==> Consistent()
    {
      var pk := ProductIndex(products, productId);
      if pk.None? {
        return NoProduct;
      }
      var p := products[pk.value];
      if p.stock <= 0 {
        return OutOfStock;
      }
      var lk := LineIndex(cart, productId);
      if lk.Some? {
        var k := lk.value;
        if cart[k].quantity >= p.stock {
          return StockLimit;
        }
        BumpLine(k);
        outcome := Incremented;
      } else {
        PushLine(NewLine(p));
        outcome := Added;
      }
    }

    /** Adds one to the quantity of line `k` in place and saves. */
    method BumpLine(k: nat)
      requires k < |cart|
      modifies this`cart, this`saved
      ensures cart == old(cart)[k := old(cart)[k].(quantity := old(cart)[k].quantity + 1)]
      ensures Count(cart) == old(Count(cart)) + 1
      ensures Total(cart) == old(Total(cart)) + old(cart)[k].price
      ensures saved == Saved(users, products, cart, old(saved.session))
      ensures old(InSync()) ==> InSync()
      ensures old(Consistent()) ==> Consistent()
    {
      IncrementLine(cart, k);
      if WellFormed(cart) {
        SetQuantityKeepsWellFormed(cart, k, cart[k].quantity + 1);
      }
      cart := cart[k := cart[k].(quantity := cart[k].quantity + 1)];
      SaveData();
    }

    /** Appends a line for a product that has none yet, and saves. */
    method PushLine(l: Line)
      requires LineIndex(cart, l.id).None? && l.quantity >= 1
      modifies this`cart, this`saved
      ensures cart == old(cart) + [l]
      ensures Count(cart) == old(Count(cart)) + l.quantity
      ensures Total(cart) == old(Total(cart)) + l.price * l.quantity
      ensures saved == Saved(users, products, cart, old(saved.session))
      ensures old(InSync()) ==> InSync()
      ensures old(Consistent()) ==> Consistent()
    {
      AppendLine(cart, l);
      if WellFormed(cart) {
        AppendKeepsWellFormed(cart, l);
      }
      cart := cart + [l];
      SaveData();
    }

    /** Sets the quantity of line `k` to a positive `q` in place, and saves. */
    method SetLineQuantity(k: nat, q: int)
      requires k < |cart| && q >= 1
      modifies this`cart, this`saved
      ensures cart == old(cart)[k := old(cart)[k].(quantity := q)]
      ensures Count(cart) == old(Count(cart)) - old(cart)[k].quantity + q
      ensures saved == Saved(users, products, cart, old(saved.session))
      ensures old(InSync()) ==> InSync()
      ensures old(Consistent()) ==> Consistent()
    {
      CountSetQuantity(cart, k, q);
      if WellFormed(cart) {
        SetQuantityKeepsWellFormed(cart, k, q);
      }
      cart := cart[k := cart[k].(quantity := q)];
      SaveData();
    }

    /** `removeFromCart`: drops every line of this product and saves, whether
        or not there was one. */
    method RemoveFromCart(productId: int)
      modifies this`cart, this`saved
      ensures cart == RemoveLines(old(cart), productId)
      ensures RemoveLines(cart, productId) == cart
      ensures old(UniqueIds(cart)) && LineIndex(old(cart), productId).Some? ==>
                var q := old(cart)[LineIndex(old(cart), productId).value].quantity;
                Count(cart) == old(Count(cart)) - q
      ensures saved == Saved(users, products, cart, old(saved.session))
      ensures old(InSync()) ==> InSync()
      ensures old(Consistent()) ==> Consistent()
    {
      var k := LineIndex(cart, productId);
      if UniqueIds(cart) && k.Some? {
        RemoveLine(cart, k.value);
      }
      if WellFormed(cart) {
        RemoveLinesKeepsWellFormed(cart, productId);
      }
      RemoveLinesIdempotent(cart, productId);
      cart := RemoveLines(cart, productId);
      SaveData();
    }

    /** `updateQuantity`: silently does nothing without a line or a product;
        a new quantity of zero or less removes the line; one above the stock is
        refused; otherwise the line takes the new quantity. */
    method UpdateQuantity(productId: int, change: int) returns (outcome: Outcome)
      modifies this`cart, this`saved
      ensures LineIndex(old(cart), productId).None? ==> outcome == NoLine
      ensures LineIndex(old(cart), productId).Some? && ProductIndex(old(products), productId).None? ==>
                outcome == NoProduct
      ensures LineIndex(old(cart), productId).Some? && ProductIndex(old(products), productId).Some? ==>
                var k := LineIndex(old(cart), productId).value;
                var p := old(products)[ProductIndex(old(products), productId).value];
                var q := old(cart)[k].quantity + change;
                && (q <= 0 ==> outcome == Removed && cart == RemoveLines(old(cart), productId))
                && (0 < q && q > p.stock ==> outcome == StockLimit)
                && (0 < q <= p.stock ==>
                      && outcome == Updated
                      && cart == old(cart)[k := old(cart)[k].(quantity := q)]
                      && Count(cart) == old(Count(cart)) + change)
      ensures outcome in {NoLine, NoProduct, StockLimit} ==> cart == old(cart) && saved == old(saved)
      ensures outcome in {Removed, Updated} ==> saved == Saved(users, products, cart, old(saved.session))
      ensures old(InSync()) ==> InSync()
      ensures old(Consistent()) ==> Consistent()
    {
      var lk := LineIndex(cart, productId);
      if lk.None? {
        return NoLine;
      }
      var pk := ProductIndex(products, productId);
      if pk.None? {
        return NoProduct;
      }
      var k := lk.value;
      var p := products[pk.value];
      var q := cart[k].quantity + change;
      if q <= 0 {
        RemoveFromCart(productId);
        return Removed;
      }
      if q > p.stock {
        return StockLimit;
      }
      SetLineQuantity(k, q);
      outcome := Updated;
    }
  }
}
