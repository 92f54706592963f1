# LojaPersonaLISA core, modelled in Dafny

LojaPersonaLISA is an online shop for crochet toys, built on Express and SQLite. This project models the
parts of its server and client code that carry rules of their own, and proves what those rules guarantee:

- **Session cart** (`routes/cart.js`), in `cart.dfy`. The cart is an ordered list of lines keyed by
  (product, variant).
  - The routes add, update, remove and clear lines.
  - The cart view prices the lines and adds a shipping price.
  - `/frete` quotes shipping from a CEP (the Brazilian postal code).
  - `AddToCart`, `UpdateCart`, `RemoveFromCart` and `ClearCart` say what each route does to the cart.
  - Class `SessionCart` holds `req.session.cart` and `req.session.selectedShipping`. Its methods carry out
    the routes statement by statement and are proved to agree with those functions.
- **Back office** (`routes/admin.js`), in `admin.dfy`.
  - The `requireAdmin` guard and the category slug builder.
  - The 20-row pagination of the listings.
  - The routes that change the products, categories and product_categories tables. They are modelled as
    functions on an in-memory `Store`; class `BackOffice` runs the same routes in place, including the
    link-insert loop.
- **Catalog** (`routes/products.js`), in `catalog.dfy`: the sort switch, the category filter, the 12-row
  pagination, the image fallback, the grouping of variants by name, and the availability of the structured
  data.
- **Accounts** (`routes/auth.js`), in `auth.dfy`.
  - The field validators and the login, registration and password-change decisions.
  - Class `AuthContext` holds the users table and the `user` / `returnTo` part of the session.
- **Client masks** (`public/js/app.js`), in `masks.dfy`: `formatCEP`, `validateCEP`, `formatPhone`,
  `getCookie`, and what the cart page sends when a quantity is changed. Each is tied to the server rule it
  feeds. For a quantity of 0 or less the page hands a plain object to the remove handler, whose
  `event.preventDefault()` throws, so nothing is sent; the evidently intended behaviour (confirm, then
  remove the line) is modelled beside it.
- **Seed script** (`scripts/init-database.js`), in `seed.dfy`.
  - The keyword chain that picks each sample product's category.
  - The equal stock share of its variants.
  - The seeding loop, as class `Seeder`.

Shared helpers:

- `wrappers.dfy`: `Option` and `Result`.
- `text.dfy`: digit stripping, ASCII whitespace, lowercasing, `includes`, `split` and `join`.
- `paging.dfy`: `parseInt(page) || 1` and the ceiling-division pagination that admin and catalog share.

Query results, the ids the database assigns, bcrypt, `isEmail`/`normalizeEmail` and `decodeURIComponent`
are all parameters of the model. Prices are integer centavos.

## Model

| member | source | states |
|---|---|---|
| Paging.PageNumber | routes/admin.js:75 | `parseInt(page) \|\| 1`: the page is never 0; a parsed non-zero number is kept as is (negative included); NaN and 0 give 1 |
| Paging.CeilDiv | routes/admin.js:93 | `Math.ceil(total / limit)` on integers: the least page count whose pages cover every row |
| Paging.Paginate | routes/admin.js:75-77 | offset is `(page - 1) * limit`; the page count covers the rows with no empty last page; `hasNext` iff page < total; `hasPrev` iff page > 1; `next`/`prev` are page ± 1 |
| Paging.PageStartsInsideListing | routes/admin.js:75-104 | every page from 1 up to the page count starts at an existing row |
| Paging.RowOnExactlyOnePage | routes/admin.js:76-93 | every row lies on exactly one page, and that page is within the page count |
| Paging.EmptyListingNext | routes/admin.js:93-104 | an empty listing has 0 pages and offers a next page exactly when the requested page is negative |
| Paging.NextStaysInRange | routes/admin.js:100-105 | from a page of at least 1, a `next` link offered by `hasNext` never leaves the page range |
| Text.Digits | routes/cart.js:277 | `replace(/\D/g, '')`: the result is all digits, no longer than the input, and the input itself when it is all digits |
| Text.DigitsAppend | routes/cart.js:277 | stripping non-digits distributes over concatenation |
| Text.SplitJoin | public/js/app.js:52 | `split(sep)` loses nothing: joining the pieces with the separator gives the input back |
| Text.Split | public/js/app.js:52-53 | `split` on a non-empty separator always gives at least one piece |
| Text.SplitPiecesLackSeparator | public/js/app.js:52-53 | the string is cut at every occurrence: no piece contains the separator |
| Text.SplitWithoutSeparator | public/js/app.js:52-53 | a string without the separator splits into itself alone |
| Text.TrimStart | routes/auth.js:119 | the result is a suffix of the input that does not start with a blank, and everything dropped is blank |
| Text.Lower | routes/admin.js:513 | `toLowerCase` keeps the length, leaves no capital of the modelled alphabet, and keeps every other character |
| Cart.NormaliseVariant | routes/cart.js:108 | `variantId \|\| null`: a missing variant or variant 0 becomes null; any other id is kept |
| Cart.IndexOf | routes/cart.js:107-109 | `findIndex`: -1 iff no line has the key, otherwise the first line with it |
| Cart.Status | routes/cart.js:80-116 | each refusal answers 404 (missing product, variant or line) or 400 (stock, empty cart, bad CEP) |
| Cart.AddToCart | routes/cart.js:72-135 | a missing product gives 404 `ProductNotFound`; a variant id with no active variant gives `VariantNotFound`; every other refusal is `InsufficientStock`; a success keeps the line count or adds one line |
| Cart.UpdateCart | routes/cart.js:160-186 | `EmptyCart` iff there is no cart, `ItemNotFound` iff no line has the key; a success drops one line for 0 or less and keeps the line count otherwise |
| Cart.RemoveFromCart | routes/cart.js:200-219 | `EmptyCart` iff there is no cart, `ItemNotFound` iff no line has the key; a success drops exactly one line |
| Cart.ClearCart | routes/cart.js:244-252 | clearing leaves an empty cart whose count is 0 |
| Cart.AddStockRefusal | routes/cart.js:93-120 | an add is refused for stock exactly when the requested quantity exceeds the stock, or when the merged quantity would |
| Cart.AddNewKeyAppends | routes/cart.js:124-131 | a new key appends exactly one line at the end with the normalised variant and the requested quantity; earlier lines are unchanged |
| Cart.AddExistingKeyMerges | routes/cart.js:111-122 | an existing key keeps the cart length and changes only that line, whose quantity grows by the amount added |
| Cart.AddCount | routes/cart.js:134 | after a successful add the reported count is the old count plus the quantity added |
| Cart.AddKeepsUniqueKeys | routes/cart.js:107-131 | an add keeps every (product, variant) key on at most one line |
| Cart.UpdateRefusals | routes/cart.js:165-175 | an update of a missing cart gives the empty-cart error; it gives the missing-line error iff no line has the key |
| Cart.UpdateNonPositiveRemoves | routes/cart.js:177-180 | an update to 0 or less is exactly a removal |
| Cart.UpdatePositiveSets | routes/cart.js:181-183 | an update to a positive quantity sets that line to exactly that value, with no stock check, and leaves every other line alone |
| Cart.UpdateKeepsUniqueKeys | routes/cart.js:169-183 | an update keeps keys unique |
| Cart.UpdateCount | routes/cart.js:185 | the count after an update is the old count with that line's quantity replaced, or dropped |
| Cart.RemoveDeletesOnlyThatLine | routes/cart.js:208-218 | a removal deletes the matching line and keeps the others in their order; no line with that key remains; the count drops by its quantity |
| Cart.RemoveKeepsUniqueKeys | routes/cart.js:208-216 | a removal keeps keys unique |
| Cart.TotalAppend | routes/cart.js:134 | the cart count, a sum of quantities, is additive over concatenation |
| Cart.TotalRemoveAt | routes/cart.js:216-218 | splicing a line out lowers the count by its quantity |
| Cart.TotalSetQuantity | routes/cart.js:182-185 | setting a line's quantity changes the count by the difference |
| Cart.RemoveAtKeepsOthers | routes/cart.js:216 | `splice(i, 1)` drops line i and shifts the later lines down by one, in order |
| Cart.UniqueAfterRemoveAt | routes/cart.js:216 | a splice keeps keys unique |
| Cart.UniqueAfterSetQuantity | routes/cart.js:122 | changing a quantity keeps keys unique |
| Cart.UniqueAfterAppend | routes/cart.js:125-131 | appending a key not yet present keeps keys unique |
| Cart.QuoteShipping | routes/cart.js:277-320 | refused (400) iff the cleaned CEP does not have exactly 8 digits; otherwise the cleaned CEP with exactly PAC, SEDEX and pickup at 0, PAC cheaper than SEDEX, priced by the first digit's region |
| Cart.QuoteDependsOnFirstDigit | routes/cart.js:287-317 | two valid CEPs with the same first digit get the same options |
| Cart.Priced | routes/cart.js:15-39 | the enrichment loop over the cart lines; what it keeps and how it prices is stated by the four lemmas below |
| Cart.PricedLinesAreFaithful | routes/cart.js:15-37 | each priced line comes from a cart line whose product exists; its total is (product price + variant adjustment) × quantity |
| Cart.PricedNoLonger | routes/cart.js:15-24 | pricing never adds lines |
| Cart.PricedKeepsAllIffAllExist | routes/cart.js:15-24 | pricing keeps every line iff every line's product still exists |
| Cart.PricedAppend | routes/cart.js:15-39 | pricing distributes over concatenation |
| Cart.SumTotalsAppend | routes/cart.js:27-28 | the subtotal is additive over concatenation |
| Cart.SubtotalAfterRemove | routes/cart.js:15-39 | removing a line whose product exists lowers the subtotal by exactly that line's total |
| Cart.SessionCart.Add | routes/cart.js:72-135 | the new cart is `AddToCart` of the old one; on refusal the cart is unchanged; the reported count is the new count; keys stay unique |
| Cart.SessionCart.Update | routes/cart.js:160-186 | the new cart is `UpdateCart` of the old one; on refusal it is unchanged; the reported count is the new count |
| Cart.SessionCart.Remove | routes/cart.js:200-219 | the new cart is `RemoveFromCart` of the old one; on refusal it is unchanged; the reported count is the new count |
| Cart.SessionCart.Clear | routes/cart.js:244-252 | the cart becomes empty and the count 0; the chosen shipping stays |
| Cart.SessionCart.SelectShipping | routes/cart.js:335-345 | the chosen shipping becomes the submitted option; the cart stays |
| Cart.SessionCart.View | routes/cart.js:6-59 | the loop's items are the priced lines; the subtotal is their sum; the shipping is the chosen one, PAC 15.90 by default; total = subtotal + shipping price; `isEmpty` iff no item |
| Cart.ViewAfterClear | routes/cart.js:42-58 | after a clear the view is empty with subtotal 0, and its total is the price of the shipping option chosen before (a clear keeps it), 15.90 when none was chosen |
| Admin.Strip | routes/admin.js:520 | `/[^a-z0-9\s-]/g` removal: only kept characters remain, and a string of kept characters is unchanged |
| Admin.Collapse | routes/admin.js:521 | `/\s+/g` to `-`: no whitespace remains, and a string of kept characters becomes a string of slug characters |
| Admin.Slugify | routes/admin.js:513-521 | a generated slug holds only `a-z`, `0-9` and `-` |
| Admin.FinalSlug | routes/admin.js:513 | a non-empty submitted slug is used verbatim; otherwise the generated slug is used |
| Admin.CollapseNoSpace | routes/admin.js:521 | text without whitespace is left alone by the dash rule |
| Admin.TrimStartSkipsBlanks | routes/admin.js:521 | leading whitespace before non-blank text is skipped entirely |
| Admin.CollapseRun | routes/admin.js:521 | a non-empty run of whitespace between two parts becomes exactly one dash |
| Admin.SlugStagesFixSlugs | routes/admin.js:513-521 | on a string of slug characters, each stage of the builder changes nothing |
| Admin.SlugifyIdempotent | routes/admin.js:513-521 | generating a slug from a generated slug gives it back |
| Admin.SlugOfChar | routes/admin.js:513-521 | a single character: a whitespace character gives `-`, a character that folds to a slug character gives that character, and any other gives nothing |
| Admin.SlugOfLetter | routes/admin.js:513-520 | a character that folds to a plain letter gives exactly that letter |
| Admin.AccentedAFolds | routes/admin.js:514 | á, à, â, ã, ä, in either case, each give `a` |
| Admin.AccentedEFolds | routes/admin.js:515 | é, è, ê, ë, in either case, each give `e` |
| Admin.AccentedIFolds | routes/admin.js:516 | í, ì, î, ï, in either case, each give `i` |
| Admin.AccentedOFolds | routes/admin.js:517 | ó, ò, ô, õ, ö, in either case, each give `o` |
| Admin.AccentedUFolds | routes/admin.js:518 | ú, ù, û, ü, in either case, each give `u` |
| Admin.CedillaFolds | routes/admin.js:519 | ç and Ç give `c` |
| Admin.InsertLinks | routes/admin.js:277-283 | the link-insert loop adds at most one link per id, and exactly one per id when every insert succeeds |
| Admin.Listing | routes/admin.js:75-104 | 20 rows a page: offset `(page-1)*20`; the page count is `ceil(rows/20)`; the `hasNext`/`hasPrev` rules |
| Admin.StatusFilter | routes/admin.js:323-331 | orders are filtered by status iff one was given and it is not `all` |
| Admin.RecordOf | routes/admin.js:160-170 | the record written from the form: `parseInt(stock) \|\| 0`, and the two check boxes as booleans |
| Admin.Unlink | routes/admin.js:272 | deleting a product's links removes exactly the links of that product |
| Admin.SubmittedIds | routes/admin.js:176-178 | a single submitted category is treated as a one-element list; a missing field submits none |
| Admin.InsertLinksSpec | routes/admin.js:277-283 | the insert loop succeeds iff the ids are distinct, exist and are not yet linked; then exactly those links are added; it only ever adds links of that product to valid categories |
| Admin.AllIn | routes/admin.js:277-283 | "every submitted id is valid" reads the same by index and by membership |
| Admin.ReplaceLinksExact | routes/admin.js:272-283 | after unlinking, a loop over distinct existing ids leaves the product linked to exactly those ids |
| Admin.CreateCategory | routes/admin.js:507-537 | 403 iff not an admin; the insert succeeds iff the id is new and no category has the final slug; then exactly one row is added, with that slug and no parent; otherwise nothing changes |
| Admin.DeleteCategory | routes/admin.js:594-612 | a delete succeeds iff an admin asks, no link names the category and no category names it as its parent (the foreign key); then only that category row is removed; otherwise nothing changes |
| Admin.SoftDeleteProduct | routes/admin.js:297-305 | only `active` of that product changes, to false; every other row and table stays |
| Admin.CreateProduct | routes/admin.js:150-194 | 403 iff not an admin; categories never change; with a new id and a free slug the product row is inserted even when a later link insert fails; otherwise nothing changes |
| Admin.UpdateProduct | routes/admin.js:243-294 | 403 iff not an admin; categories never change; the slug is checked only against an existing row; the row is updated even when a later link insert fails; on a slug clash nothing changes |
| Admin.AnswerFor | routes/admin.js:8-16 | 403 exactly for a non-admin; success redirects to the listing; a failed statement renders a 500 page on the product routes, while the category routes redirect (to the form after a failed create) |
| Admin.NonAdminChangesNothing | routes/admin.js:8-16 | without an administrator session every route answers 403 and leaves all tables unchanged |
| Admin.CategoryRoutesRedirect | routes/admin.js:531-535 | an administrator's category create or delete is always answered with a redirect; a delete always returns to the category list |
| Admin.UpdateProductLinks | routes/admin.js:243-283 | after an admin update of an existing product with distinct existing ids, its links are exactly those ids, and other products' links are untouched |
| Admin.CreateProductLinks | routes/admin.js:150-185 | a product created with distinct existing categories is linked to exactly those |
| Admin.CreateCategoryKeepsConsistent | routes/admin.js:507-526 | creating a category keeps every link pointing at existing rows and slugs unique |
| Admin.DeleteCategoryKeepsConsistent | routes/admin.js:594-612 | deleting a category keeps the store consistent |
| Admin.CreateProductKeepsConsistent | routes/admin.js:150-185 | creating a product keeps the store consistent, even when the link loop stops midway |
| Admin.UpdateProductKeepsConsistent | routes/admin.js:243-283 | updating a product keeps the store consistent, even when the link loop stops midway |
| Admin.SoftDeleteKeepsConsistent | routes/admin.js:297-305 | soft-deleting keeps the store consistent |
| Admin.BackOffice.CreateCategoryRoute | routes/admin.js:507-537 | the new tables and the error are those of `CreateCategory` |
| Admin.BackOffice.DeleteCategoryRoute | routes/admin.js:594-619 | the new tables and the error are those of `DeleteCategory` |
| Admin.BackOffice.InsertLinksLoop | routes/admin.js:277-283 | one insert per id, stopping at the first failure; the links and the outcome are those of `InsertLinks`; products and categories do not change |
| Admin.BackOffice.CreateProductRoute | routes/admin.js:150-194 | the new tables and the error are those of `CreateProduct` |
| Admin.BackOffice.UpdateProductRoute | routes/admin.js:243-294 | the new tables and the error are those of `UpdateProduct` |
| Admin.BackOffice.SoftDeleteProductRoute | routes/admin.js:297-313 | the new tables and the error are those of `SoftDeleteProduct` |
| Catalog.SortValue | routes/products.js:13 | `sort \|\| 'newest'` |
| Catalog.OrderingFor | routes/products.js:26-41 | each of the four keys selects its own ordering; every other value falls back to newest first |
| Catalog.DefaultSortIsNewest | routes/products.js:13-41 | an absent or empty sort lists newest first |
| Catalog.CategoryFilter | routes/products.js:19-22 | the listing is filtered iff a non-empty category was given, and then by that slug |
| Catalog.Listing | routes/products.js:9-11 | 12 rows a page: offset `(page-1)*12`; the page count is `ceil(rows/12)`; the `hasNext`/`hasPrev` rules of lines 97-104 |
| Catalog.Images | routes/products.js:149-171 | never empty: the image rows if any exist, else one primary entry for the product's own image, else one primary `placeholder.svg` |
| Catalog.MetaImageAlwaysPresent | routes/products.js:222 | `meta_image` always has a first image; without image rows that image is primary and has a non-empty file name |
| Catalog.AvailabilityOf | routes/products.js:235 | InStock iff stock > 0 |
| Catalog.OfName | routes/products.js:182-187 | a group holds exactly the variants of that name, in input order |
| Catalog.FirstNames | routes/products.js:183-185 | the names in the order their groups are created are distinct, and they are exactly the names that occur |
| Catalog.OfNameAppend | routes/products.js:182-187 | grouping distributes over concatenation, so order within a group is input order |
| Catalog.GroupVariants | routes/products.js:181-187 | the `forEach` builds one group per name, created in order of first appearance, each equal to the variants of that name |
| Catalog.GroupsPartition | routes/products.js:181-187 | every variant is in the group of its own name and no other, and the group sizes add up to the number of variants |
| Auth.NameOk | routes/auth.js:116-117 | `isLength({ min: 2, max: 50 })` on the raw name |
| Auth.NameCheckedBeforeTrim | routes/auth.js:116-119 | a name that passes is stored trimmed with at most 50 characters; ` a` passes and is stored as the one-letter `a` |
| Auth.LoginErrors | routes/auth.js:33-41 | the login form fails iff the email is invalid or the password is empty, one error per failing field |
| Auth.RegistrationErrors | routes/auth.js:115-138 | the form passes iff name is 2–50 characters, the email is valid, the password has ≥ 6, the confirmation equals it and the phone is empty or matches; one error per failing field |
| Auth.ChangePasswordErrors | routes/auth.js:303-318 | the same rules on `newPassword`, and a non-empty current password |
| Auth.PhoneMatches | routes/auth.js:136 | the phone pattern `^\(\d{2}\)\s\d{4,5}-\d{4}$`; its two directions are the two lemmas below |
| Auth.PhoneMatchesHasShape | routes/auth.js:136 | every accepted phone is `(DD)`, a space, 4 or 5 digits, `-` and 4 digits |
| Auth.PhoneShapeMatches | routes/auth.js:136 | every string of that shape is accepted |
| Auth.FindByEmail | routes/auth.js:58 | the lookup finds a user with that email iff one exists |
| Auth.FindById | routes/auth.js:330 | the lookup finds a user with that id iff one exists |
| Auth.LoginTarget | routes/auth.js:90 | `returnTo \|\| '/'` |
| Auth.SetPasswordHash | routes/auth.js:346-349 | only the hash of the row with that id changes |
| Auth.LoginDecision | routes/auth.js:33-94 | validation errors come first and are returned as they are; every other refusal is the one `BadCredentials`; a success is the session user of the row with that email |
| Auth.RegisterDecision | routes/auth.js:115-183 | validation errors come first; every other refusal is `EmailTaken`; a success is a new non-admin row with the new id, the email and hash given, a name of at most 50 characters, and no earlier row has the email |
| Auth.ChangePasswordDecision | routes/auth.js:303-357 | validation errors come first; the other refusals are the internal error of a missing row and a wrong current password; a success keeps the table size |
| Auth.LoginSucceedsIff | routes/auth.js:58-87 | with unique emails, a valid form signs in iff a user has that email and the password matches its hash; the session user is that user |
| Auth.LoginFailuresIndistinguishable | routes/auth.js:58-77 | an unknown email and a wrong password give the same error, "Email ou senha incorretos" |
| Auth.RegisterOutcome | routes/auth.js:155-181 | a taken email inserts nothing; a fresh one inserts a non-admin row with that email, the new hash and the given id |
| Auth.RegisterKeepsUnique | routes/auth.js:155-174 | inserting a registered row keeps emails and ids unique |
| Auth.PasswordChangesOnlyOnVerify | routes/auth.js:330-349 | the stored hash changes only when the current password verifies, and then only that user's |
| Auth.SetPasswordHashKeepsUnique | routes/auth.js:346-349 | changing a hash keeps emails and ids unique |
| Auth.RedirectIfAuthenticated | routes/auth.js:8-13 | a signed-in user is redirected to `/`; anyone else goes on |
| Auth.AuthContext.RequireAuth | routes/auth.js:16-22 | without a user, `returnTo` becomes the URL and the answer is the login redirect; with one, nothing changes |
| Auth.AuthContext.Login | routes/auth.js:33-94 | on success the session user is set, `returnTo` is cleared and the redirect is to its old value or `/`; on failure the session is unchanged |
| Auth.AuthContext.Register | routes/auth.js:115-183 | on success exactly one row is appended and its user is signed in with `is_admin` false; on failure nothing changes |
| Auth.AuthContext.ChangePassword | routes/auth.js:303-357 | without a user it behaves as `requireAuth`; otherwise the users become those of `ChangePasswordDecision` |
| Auth.AuthContext.Logout | routes/auth.js:197-204 | the session loses its user, its `returnTo`, its cart and its selected shipping option; the users table is unchanged |
| Auth.ReturnToFlow | routes/auth.js:16-93 | a guarded visit without a user, then a successful login, redirects back to the URL first asked for |
| Masks.FormatCep | public/js/app.js:380-386 | the digits kept are the first ≤ 8 typed; under 5 digits the output is the digits; otherwise the first 5, `-`, then the rest |
| Masks.FormatCepIdempotent | public/js/app.js:380-386 | formatting a formatted CEP changes nothing |
| Masks.ValidateCep | public/js/app.js:388-395 | the client check: exactly 8 digits once non-digits are dropped; tied to the server by the lemma below |
| Masks.ValidateCepAgreesWithServer | public/js/app.js:388-395 | the client accepts a CEP iff the server's quote does (routes/cart.js:277-280) |
| Masks.FormattedCepValid | public/js/app.js:380-395 | a formatted CEP passes validation iff at least 8 digits were typed, and the server then quotes the first 8 |
| Masks.PhoneMaskDigits | public/js/app.js:423-425 | the mask adds no digits and loses none |
| Masks.PhoneMaskAccepted | public/js/app.js:423-425 | a mask of 2, 4 or 5, and 4 digits matches the server's phone pattern (routes/auth.js:136) |
| Masks.FormatPhone | public/js/app.js:420-428 | the digits kept are the first ≤ 11 typed; under 10 digits the output is the digits; otherwise the mask adds four characters |
| Masks.FormatPhoneElevenDigitsAccepted | public/js/app.js:422-425 | with 11 or more digits the formatted phone is accepted by the server |
| Masks.FormatPhoneTenDigitsRejected | public/js/app.js:422-425 | with exactly 10 digits the output is `(DD) DDDDD-DDD`, which the server's pattern rejects |
| Masks.FormatPhoneLandlineExample | public/js/app.js:420-428 | `1133334444` is formatted as `(11) 33334-444` and rejected |
| Masks.FormatPhoneIntended | public/js/app.js:420-428 | the mask with a 4-digit prefix for 10 digits; otherwise as written |
| Masks.FormatPhoneIntendedAccepted | public/js/app.js:422-425 | with the corrected mask every input of 10 or more digits is accepted by the server |
| Masks.ReduceNoMatch | public/js/app.js:52-55 | with no piece of that name the reduction returns its start value |
| Masks.ReduceLastMatch | public/js/app.js:52-55 | the reduction returns the decoded value of the last piece with that name |
| Masks.GetCookie | public/js/app.js:51-56 | `split('; ')` followed by the `reduce`; its result is stated by the lemma below |
| Masks.GetCookieLastMatch | public/js/app.js:51-56 | `getCookie` is `''` when no cookie has the name, and the decoded value of the last one that has it otherwise |
| Masks.QuantityRequestAsWritten | public/js/app.js:135-139 | as written: nothing is sent for 0 or less (the remove handler throws at app.js:174), never a removal; an update to the quantity otherwise |
| Masks.QuantityPositiveAgrees | public/js/app.js:135-155 | for a quantity above 0 the written and the intended handler send the same update |
| Masks.QuantityAsWrittenMissesRemoval | public/js/app.js:137-138 | for 0 or less on a line in the cart the page as written leaves the cart unchanged, although the server's update would succeed and drop that line |
| Masks.QuantityRequestFor | public/js/app.js:135-139 | the intended handler: a quantity above 0 is sent as an update to that quantity; 0 or less is sent as a removal iff the user confirms, and otherwise nothing is sent |
| Masks.QuantityShortcutAgrees | public/js/app.js:135-155 | once confirmed, the intended handler leaves the cart exactly as sending the quantity to the server's update would (routes/cart.js:177-183), for every quantity |
| Seed.CategorySlugFor | scripts/init-database.js:242-254 | the keyword if-chain on the lowercased name; its properties are the lemmas below |
| Seed.CategorySlugSeeded | scripts/init-database.js:241-254 | every slug the chain picks is one of the seeded categories or subcategories |
| Seed.CategorySlugDefault | scripts/init-database.js:242 | the slug is `pelúcias` iff no keyword occurs in the lowercased name |
| Seed.FirstMatchNone | scripts/init-database.js:242-254 | when no rule applies, the default is chosen |
| Seed.FirstMatchAt | scripts/init-database.js:244-254 | when rule i is the first that applies, its slug is chosen |
| Seed.AnyInPair | scripts/init-database.js:244 | a rule of two keywords applies iff either occurs |
| Seed.AnyInOne | scripts/init-database.js:246 | a rule of one keyword applies iff it occurs |
| Seed.CategorySlugFollowsRules | scripts/init-database.js:242-254 | the if-chain is the first match in the keyword table, in priority order, on the lowercased name |
| Seed.KeychainWins | scripts/init-database.js:244-245 | a name with `chaveiro` or `porta` is always filed under `chaveiros` |
| Seed.VariantRows | scripts/init-database.js:230-238 | no rows without an id or without variants; otherwise one row per variant, carrying its name and value and `floor(stock / n)` |
| Seed.TotalOfEqualShares | scripts/init-database.js:235 | n equal shares add up to n times the share |
| Seed.VariantSharesFit | scripts/init-database.js:235 | the variant stocks add up to at most the product stock, short by less than the number of variants |
| Seed.LinkFor | scripts/init-database.js:241-262 | a product is linked iff it got an id and its slug names an existing category, and then to that category |
| Seed.SeededCategoriesLinkEveryProduct | scripts/init-database.js:241-262 | once every seeded category exists, every inserted product gets a link |
| Seed.LinksCharacterised | scripts/init-database.js:213-262 | a link is seeded iff it is some product's link |
| Seed.PrefixRows | scripts/init-database.js:213-238 | one more product appends exactly its variant rows |
| Seed.PrefixLinks | scripts/init-database.js:213-262 | one more product adds exactly its link |
| Seed.Seeder.SeedProduct | scripts/init-database.js:230-262 | one product's loop appends its variant rows in order and adds its link |
| Seed.Seeder.SeedNext | scripts/init-database.js:213-262 | one step of the products loop extends the rows and links of the products seeded so far |
| Seed.Seeder.SeedProducts | scripts/init-database.js:213-263 | the products loop appends every product's variant rows in order and adds every product's link |

## Left out

- SQL is not modelled. Queries, joins, ordering, `LIMIT`/`OFFSET` and `GROUP_CONCAT` are the database's
  work. Their results and the ids an insert is given (`newId`, `result.id`) are inputs.
- database/database.js, server.js, routes/index.js and scripts/reset-database.js are not part of this
  model.
- Cryptography and validation libraries are opaque inputs.
  - bcrypt's `compare` is a `matches` parameter, and a new hash is an input.
  - express-validator's `isEmail` and `normalizeEmail` are an `emailValid` flag plus the email as given.
- `decodeURIComponent` is a `decode` parameter, so its exception on a malformed value is not modelled.
- Floating point is not modelled. Prices are integer centavos, so `toFixed(2)` formatting is left out.
- Unicode is modelled only over an explicit alphabet.
  - `toLowerCase` covers ASCII and Latin-1 letters.
  - `\s` covers ASCII whitespace.
  - Other scripts and non-ASCII spaces are outside the model.
- JavaScript input coercion is not modelled.
  - Cart ids are already-parsed integers. A falsy variant id is `None` or `0`.
  - A quantity that `parseInt` turns into NaN on the client is not modelled.
- Rendering and the session store are not modelled: EJS and flash messages. Of the answers, only the admin
  routes' redirects and error pages (`AnswerFor`) and the cart's status codes are modelled.
- The DOM side of public/js/app.js is not modelled: fetch calls, toasts, tooltips, lazy loading,
  `debounce`, and input events beyond the value a mask receives.
- Admin routes outside the back-office rules are not modelled: the dashboard, order details and order
  status updates, and the listing queries themselves. These are plain SQL with no rule of their own.
- `POST /auth/perfil` is not modelled. Its validators are the same `NameOk` and `PhoneOk` predicates as
  registration.
- Catalog.GroupVariants / Catalog.FirstNames: `variantGroups` is a plain object, so two effects of the
  object are not modelled. `Object.keys` lists integer-like names (`"10"`) first, in numeric order, before
  the others in creation order. A variant named after an `Object.prototype` member (`constructor`,
  `toString`, `__proto__`) finds an inherited value, so `.push` throws and the page answers 500.
- Seed: only products, product_variants and product_categories are modelled. The category and
  subcategory inserts become the `categoryIds` map. The sample data itself is input to `SeedProducts`.
- Seed.Seeder.SeedProducts: `INSERT OR IGNORE` on a product whose slug already exists is not modelled.
  The id the driver reports is an input, so the model does not say which id sqlite returns then.

## Findings

| source | as written | input that shows it | evidently intended | confidence | as-written member | corrected member |
|---|---|---|---|---|---|---|
| public/js/app.js:422-425 | with 10 digits or more, the mask is `(d0d1) d2..d6-d7..d10`, so 10 digits leave only 3 after the dash | typing `1133334444` gives `(11) 33334-444`, which the phone pattern at routes/auth.js:136 rejects | a 10-digit landline formatted `(DD) DDDD-DDDD`, which the server accepts | not executed | Masks.FormatPhoneTenDigitsRejected | Masks.FormatPhoneIntendedAccepted |
| public/js/app.js:137-138 | for a quantity of 0 or less, `handleRemoveFromCart({ target: input })` is called with a plain object, and its first statement `event.preventDefault()` (app.js:174) throws, so no request is sent | setting the quantity field of a cart line to `0` | confirm, then remove the line, as the server's own update does for 0 or less (routes/cart.js:177-180) | not executed | Masks.QuantityAsWrittenMissesRemoval | Masks.QuantityShortcutAgrees |
