# Code2Cart storefront core in Dafny

Code2Cart is a single-page storefront. Everything it does happens in the
browser. It keeps four collections in memory: registered users, the product
catalog, the shopping cart, and the logged-in user. It mirrors them into the
browser's storage under four keys. This project models the logic behind the
page's event handlers and proves what each handler guarantees.

- **Identity store** (`identity.dfy`):
  - the e-mail shape check and the password strength check;
  - exact-match e-mail lookup;
  - the ordered registration checks;
  - login by exact e-mail and password, rename, and hard delete.
- **Catalog store** (`catalog.dfy`):
  - product validation, which returns its six messages in a fixed order;
  - the product built from the product form;
  - the active listing;
  - case-insensitive substring search over active products.
- **Cart engine** (`cart.dfy`):
  - cart lines, lookup by product id, and the removal filter;
  - the item-count and total folds, with lemmas on how each cart change moves them.
- **The store object** (`engine.dfy`):
  - class `Store` holds `users`, `products`, `cart`, `currentUser`, and `saved`, which is what storage holds;
  - it has one method per handler.
  - Every handler keeps two invariants:
    - `InSync`: storage equals memory after each save;
    - `Consistent`: e-mails are unique, every stored product is valid, and the cart has one line per product with each quantity at least 1.
  - `Register`, `RenameUser`, `SubmitProduct`, `AddToCart` and `UpdateQuantity` decide what to do, then hand the change to a small in-place helper that also saves (`AppendUser`, `SetUserName`, `PutProduct`, `BumpLine`, `PushLine`, `SetLineQuantity`).
  - `Login`, `Logout`, `DeleteUser`, `DeleteProduct` and `RemoveFromCart` make their change directly.
- **Helpers**:
  - `seqs.dfy` models JavaScript's `find`/`findIndex` (`FindFirst`) and `filter` (`Filter`).
  - `text.dfy` models `trim`, `toLowerCase` and `includes`.
  - `wrappers.dfy` holds `Option`.

These behaviours follow the code as written:
- `addToCart` looks the product up by id only, so an inactive product can be added.
- `addToCart` refuses a product whose stock is not positive, even when the product already has a cart line.
- Editing a product always stores it as active, which undoes a soft delete.
- Registration reports a duplicate e-mail before a weak password.

Prices are integer cents. Dialog answers (`confirm`, `prompt`), fresh ids and timestamps are method parameters.

## Model

| member | source | states |
|---|---|---|
| Identity.IsValidEmail | script.js:109-112 | `isValidEmail` accepts exactly the strings of the form `local@domain.tld`: each part is non-empty and holds no white space and no `@`. |
| Identity.ScanMatchesShape | script.js:109-112 | The single-scan check behind `IsValidEmail` accepts exactly the strings the pattern `^[^\s@]+@[^\s@]+\.[^\s@]+$` matches. Both directions are proved. |
| Identity.ValidEmailHasOneAt | script.js:109-112 | An accepted address holds exactly one `@`, and it is not at the start. |
| Identity.IsValidPassword | script.js:115-119 | A password is strong exactly when it has at least 8 characters, at least one digit, and at least one of `!@#$%^&*(),.?":{}\|<>`. |
| Identity.EmailExists | script.js:122-124 | True exactly when some stored user has this exact e-mail. |
| Identity.UserIndex | script.js:253 | The lookup `editUser` does: the first user with this id, or none when no user has it. |
| Identity.CredentialIndex | script.js:180 | The lookup login does: the first user whose e-mail and password both match, or none when no user matches. |
| Identity.CredentialFound | script.js:180-182 | The login lookup succeeds exactly when some user has both this e-mail and this password. |
| Identity.WithoutUser | script.js:268 | The users left after a hard delete: every record with this id is gone, every other record stays, and the order is kept. |
| Identity.WithoutUserCounts | script.js:268 | A hard delete keeps each other record as many times as it occurred and drops every record with the id. |
| Identity.WithoutUserKeepsEmailsUnique | script.js:268 | A hard delete keeps e-mails unique. |
| Identity.CheckRegistration | script.js:135-153 | Which outcome registration reports, as an if-and-only-if for each one. A missing field comes first, then a malformed e-mail, then a taken e-mail, then a weak password. Registration is accepted exactly when every check passes. |
| Identity.DuplicateReportedBeforeWeakPassword | script.js:145-153 | An already registered e-mail with a weak password is reported as taken, not as weak. |
| Identity.AppendNewEmailKeepsUnique | script.js:164 | Appending a user whose e-mail is not registered keeps e-mails unique. |
| Text.Trim | script.js:130-131 | The trimmed string neither starts nor ends with white space, and it is empty exactly when the input is all white space. |
| Text.TrimRemovesOnlyEnds | script.js:130-131 | The trimmed string occurs in the input at some position, and everything before and after it is white space. Only the two ends are removed. |
| Seqs.FilterCounts | script.js:354 | `filter` keeps each passing element as many times as it occurs and drops every failing one. |
| Text.Lower | script.js:585 | Lower-casing keeps the length and lower-cases each ASCII capital letter. |
| Text.Contains | script.js:592-598 | `includes` holds exactly when the needle occurs at some position. |
| Catalog.ValidateProduct | script.js:278-306 | No messages exactly when the product is valid. Each message appears exactly when its check fails. The messages keep the fixed order of the checks. |
| Catalog.ViolationsFrom | script.js:278-306 | The messages of the failing checks from check `k` on, in order, and none before `k`. |
| Catalog.ProductIndex | script.js:333 | The first product with this id, or none when no product has it. |
| Catalog.FromForm | script.js:312-324 | The submitted product is always active. It has the edited id or a fresh one. Title, description and image are trimmed; the category is not. Its creation time is the edited product's, `now` for a new product, or absent when the edited id is gone. |
| Catalog.Active | script.js:354 | The listing holds the active products, every one of them, in catalog order. |
| Catalog.ActiveCounts | script.js:354 | The listing keeps each active product as many times as it occurs and no inactive one. |
| Catalog.Search | script.js:584-598 | A blank term lists exactly the active products. Any other term keeps, in catalog order, exactly the active products whose lower-cased title, description or category contains the trimmed, lower-cased term. A soft-deleted product never appears. |
| Catalog.SearchCounts | script.js:592-598 | With a non-blank term, the search keeps each matching active product as many times as it occurs and nothing else. |
| Cart.NewLine | script.js:486-492 | A new line copies the product's id, title, price and image, with quantity 1. |
| Cart.LineIndex | script.js:478 | The first line for this product, or none when the product has no line. |
| Cart.RemoveLines | script.js:563 | Every line of this product is gone, every other line stays, and the order is kept. |
| Cart.RemoveLinesCounts | script.js:563 | Removal keeps each other line as many times as it occurred and no line of this product. |
| Cart.RemoveLinesIdempotent | script.js:563 | Removing a product twice leaves the same cart as removing it once. |
| Cart.RemoveAbsentLines | script.js:563 | Removing a product that has no line leaves the cart unchanged. |
| Cart.Count | script.js:571-574 | The item count is at least the number of lines when every quantity is positive. |
| Cart.Total | script.js:577-580 | The total is non-negative when prices and quantities are. |
| Cart.AppendLine | script.js:571-580 | A pushed line adds its quantity to the count and its subtotal to the total. |
| Cart.CountSetQuantity | script.js:571-574 | Setting a line's quantity replaces its old quantity in the count. |
| Cart.TotalSetQuantity | script.js:577-580 | Setting a line's quantity replaces its old subtotal in the total. |
| Cart.IncrementLine | script.js:571-580 | One more unit adds 1 to the count and the line's price to the total. |
| Cart.RemoveLine | script.js:571-580 | When each product has one line, removing a line takes its quantity off the count and its subtotal off the total. |
| Cart.AppendKeepsWellFormed | script.js:478-492 | A new line with a positive quantity, for a product with no line yet, keeps one line per product and all quantities positive. |
| Cart.SetQuantityKeepsWellFormed | script.js:555 | A positive new quantity keeps the cart well formed. |
| Cart.RemoveLinesKeepsUniqueIds | script.js:563 | Removal keeps at most one line per product. |
| Cart.RemoveLinesKeepsWellFormed | script.js:563 | Removal keeps the cart well formed. |
| Engine.Store.Load | script.js:5-8 | Each collection is what its storage key holds, or empty when the key is missing. Storage and memory then agree. |
| Engine.Store.SaveData | script.js:724-728 | Users, products and cart are written to storage; the session key is left as it was. |
| Engine.Store.Register | script.js:127-164 | Name and e-mail are trimmed. The reported outcome is the ordered checks' verdict. An accepted user is appended at the end, and the list is saved. A rejection changes nothing. E-mail uniqueness is preserved. |
| Engine.Store.AppendUser | script.js:164-165 | The user list grows by exactly this user at the end and is saved. E-mails stay unique. |
| Engine.Store.Login | script.js:177-184 | Login succeeds exactly when some user matches the trimmed e-mail and the password. The first match becomes the logged-in user and is written to the session key. A failed login changes nothing. |
| Engine.Store.Logout | script.js:668-672 | Logout happens exactly when a user is logged in and the dialog is confirmed. The user and the session key are then cleared; otherwise nothing changes. |
| Engine.Store.RenameUser | script.js:252-260 | A rename happens exactly when the user exists and the answer is present and not blank. Only that user's name changes, to the trimmed answer, and the list is saved. Otherwise nothing changes. |
| Engine.Store.SetUserName | script.js:258-259 | Only this user's name changes. E-mails, and so their uniqueness, are kept. |
| Engine.Store.DeleteUser | script.js:266-269 | Once confirmed, every user with this id is removed and the rest saved in order. E-mails stay unique. Without confirmation nothing changes. |
| Engine.Store.SubmitProduct | script.js:309-340 | The reported messages are the validation of the submitted product. With any message, nothing changes. Otherwise the product replaces the first one with its id in place, or is appended, and the catalog is saved. Every stored product stays valid. |
| Engine.Store.PutProduct | script.js:333-340 | Upsert by id: replacing in place keeps the length and every other product; otherwise the product is appended. |
| Engine.Store.DeleteProduct | script.js:454-463 | A soft delete happens exactly when it is confirmed and some product has the id. Only that product's `active` flag changes, to false, and the catalog is saved. Otherwise nothing changes. |
| Engine.Store.AddToCart | script.js:469-498 | No product, or stock not positive: the cart is unchanged. An existing line below stock gains exactly 1, stays within stock, and every other line is untouched. A line already at stock leaves the cart unchanged. No line yet: one new line of quantity 1 is appended. After each change the count rises by 1 and the total by the price. |
| Engine.Store.BumpLine | script.js:484 | One line's quantity rises by 1 in place. The count rises by 1 and the total by that line's price. The cart stays well formed. |
| Engine.Store.PushLine | script.js:486-492 | The line is appended. Count and total rise by its quantity and subtotal. The cart stays well formed. |
| Engine.Store.SetLineQuantity | script.js:555-556 | One line takes the new quantity in place. The count changes by the difference. The cart stays well formed. |
| Engine.Store.RemoveFromCart | script.js:562-568 | The cart becomes the removal filter's result. A second removal would change nothing. With one line per product, the count drops by that line's quantity. The cart stays well formed. |
| Engine.Store.UpdateQuantity | script.js:536-559 | A missing line or product changes nothing. A new quantity of 0 or less removes the line. One above stock is refused with the cart unchanged. Otherwise the line takes exactly the new quantity and the count moves by the change. |

## Left out

- DOM rendering, messages, modals and forms are presentation only. The model returns an outcome where the page shows a message.
- Storage is modelled as the `saved` field. JSON encoding is not modelled. An unreadable stored value makes `JSON.parse` throw at start-up; the model covers only a missing key, which reads as empty.
- `Date.now()` ids and ISO timestamps are parameters (`freshId`, `now`). Nothing states that they are fresh.
- Prices are integer cents. Floating-point prices, `parseFloat` and `toFixed` formatting are not modelled.
- Ids are `int`. An edited product's id comes back from the form as a string. The loose `==` in the upsert still finds it, but later strict `===` lookups would not. The model does not capture this.
- Stock is an integer. An empty or non-numeric stock field gives `NaN` in the code, which passes validation; the model cannot represent it.
- Lengths count code points; the code counts UTF-16 units. Lower-casing is ASCII only.
- `confirm` and `prompt` are parameters: `confirmed: bool`, and `answer: Option<string>` with `None` for a cancelled prompt.
- `currentUser` holds a copy of the user record. After a login in the same page load, the code's `currentUser` is the same object as the entry in the user list, so a rename shows through it. After a reload it is a separate copy read from storage. The model always treats it as a copy.
- `handleForgotPassword` only shows a message.
- The sample catalog seed data and the product-detail, edit-form and cart-rendering views are not modelled.
