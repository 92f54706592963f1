/**
 * The back office of routes/admin.js: the `requireAdmin` guard, the category slug builder, the listing
 * pagination, and the table changes of category create/delete and product create/update/soft-delete.
 *
 * The tables are in memory: products and categories keyed by id, and `product_categories` as a set of
 * links. The schema's rules that decide whether a statement fails are modelled: UNIQUE slugs, the
 * (product, category) primary key, and the foreign keys that the connection switches on. A failed
 * statement throws, so the route answers with its error and later statements do not run; earlier ones
 * stay done, because the routes use no transaction.
 */
module Admin {
  import opened Wrappers
  import Text
  import Paging
  import Auth

  // ---------------------------------------------------------------------------------------------
  // The guard

  /** `requireAdmin` lets a request through only with a session user whose `is_admin` is set. */
  predicate IsAdmin(user: Option<Auth.SessionUser>) {
    user.Some? && user.value.isAdmin
  }

  // ---------------------------------------------------------------------------------------------
  // Slugs (`POST /admin/categorias`)

  /** The characters a generated slug may contain. */
  predicate SlugChar(c: char) {
    'a' <= c <= 'z' || Text.IsDigit(c) || c == '-'
  }

  predicate AllSlugChars(s: string) {
    forall i :: 0 <= i < |s| ==> SlugChar(s[i])
  }

  /** The six accent-folding `replace` calls, on one lower-case character. */
  function FoldChar(c: char): char {
    if c in "áàâãä" then 'a'
    else if c in "éèêë" then 'e'
    else if c in "íìîï" then 'i'
    else if c in "óòôõö" then 'o'
    else if c in "úùûü" then 'u'
    else if c == 'ç' then 'c'
    else c
  }

  function FoldAccents(s: string): string {
    seq(|s|, i requires 0 <= i < |s| => FoldChar(s[i]))
  }

  /** What `/[^a-z0-9\s-]/g` leaves in place. */
  predicate KeptChar(c: char) {
    'a' <= c <= 'z' || Text.IsDigit(c) || Text.IsSpace(c) || c == '-'
  }

  /** `.replace(/[^a-z0-9\s-]/g, '')`. */
  function Strip(s: string): (r: string)
    ensures forall i :: 0 <= i < |r| ==> KeptChar(r[i])
    ensures (forall i :: 0 <= i < |s| ==> KeptChar(s[i])) ==> r == s
  {
    if s == [] then []
    else if KeptChar(s[0]) then [s[0]] + Strip(s[1..])
    else Strip(s[1..])
  }

  /** `.replace(/\s+/g, '-')`: each maximal run of whitespace becomes one dash. */
  function Collapse(s: string): (r: string)
    ensures forall i :: 0 <= i < |r| ==> !Text.IsSpace(r[i])
    ensures (forall i :: 0 <= i < |s| ==> KeptChar(s[i])) ==> AllSlugChars(r)
    decreases |s|
  {
    if s == [] then []
    else if Text.IsSpace(s[0]) then
      var rest := Text.TrimStart(s[1..]);
      assert forall i :: 0 <= i < |rest| ==> rest[i] == s[|s| - |rest| + i];
      var tail := Collapse(rest);
      assert forall i :: 1 <= i < |tail| + 1 ==> ("-" + tail)[i] == tail[i - 1];
      "-" + tail
    else
      var tail := Collapse(s[1..]);
      assert forall i :: 1 <= i < |tail| + 1 ==> ([s[0]] + tail)[i] == tail[i - 1];
      [s[0]] + tail
  }

  /** The slug generated from a category name. */
  function Slugify(name: string): (slug: string)
    ensures AllSlugChars(slug)
  {
    Collapse(Strip(FoldAccents(Text.Lower(name))))
  }

  /** `slug || <generated>`: a non-empty submitted slug is kept verbatim, whatever it contains. */
  function FinalSlug(submitted: Option<string>, name: string): (slug: string)
    ensures submitted.Some? && submitted.value != "" ==> slug == submitted.value
    ensures submitted.None? || submitted.value == "" ==> slug == Slugify(name) && AllSlugChars(slug)
  {
    if submitted.Some? && submitted.value != "" then submitted.value else Slugify(name)
  }

  /** A string with no whitespace goes through `Collapse` untouched. */
  lemma {:induction false} CollapseNoSpace(s: string)
    requires forall i :: 0 <= i < |s| ==> !Text.IsSpace(s[i])
    ensures Collapse(s) == s
  {
    if s != [] {
      CollapseNoSpace(s[1..]);
    }
  }

  /** Whitespace followed by a non-blank rest is dropped entirely by `TrimStart`. */
  lemma {:induction false} TrimStartSkipsBlanks(w: string, b: string)
    requires forall i :: 0 <= i < |w| ==> Text.IsSpace(w[i])
    requires b == [] || !Text.IsSpace(b[0])
    ensures Text.TrimStart(w + b) == b
  {
    if w == [] {
      assert w + b == b;
    } else {
      assert (w + b)[0] == w[0];
      assert (w + b)[1..] == w[1..] + b;
      TrimStartSkipsBlanks(w[1..], b);
    }
  }

  /**
   * A word followed by a run of whitespace `w` and a part that does not start with whitespace: the run becomes
   * exactly one dash, whatever its length.
   */
  lemma {:induction false} CollapseRun(a: string, w: string, b: string)
    requires forall i :: 0 <= i < |a| ==> !Text.IsSpace(a[i])
    requires |w| > 0 && forall i :: 0 <= i < |w| ==> Text.IsSpace(w[i])
    requires b == [] || !Text.IsSpace(b[0])
    ensures Collapse(a + w + b) == a + "-" + Collapse(b)
  {
    if a == [] {
      assert a + w + b == w + b;
      assert (w + b)[1..] == w[1..] + b;
      TrimStartSkipsBlanks(w[1..], b);
    } else {
      var rest := a[1..] + w + b;
      assert a + w + b == [a[0]] + rest;
      assert ([a[0]] + rest)[1..] == rest;
      CollapseRun(a[1..], w, b);
      assert a == [a[0]] + a[1..];
    }
  }

  /** On a string of slug characters every stage of the builder is the identity. */
  lemma SlugStagesFixSlugs(s: string)
    requires AllSlugChars(s)
    ensures Text.Lower(s) == s && FoldAccents(s) == s && Strip(s) == s && Collapse(s) == s
  {
    assert Text.Lower(s) == s;
    assert FoldAccents(s) == s;
    CollapseNoSpace(s);
  }

  /** Generating a slug from a generated slug changes nothing. */
  lemma SlugifyIdempotent(name: string)
    ensures Slugify(Slugify(name)) == Slugify(name)
  {
    SlugStagesFixSlugs(Slugify(name));
  }

  /**
   * One character on its own: whitespace gives a dash; a letter that lowers and folds to `a`-`z`, a digit or
   * a dash gives that folded character; anything else is removed.
   */
  lemma SlugOfChar(c: char)
    ensures var f := FoldChar(Text.LowerChar(c));
      Slugify([c]) == if Text.IsSpace(c) then "-" else if SlugChar(f) then [f] else ""
  {
    var f := FoldChar(Text.LowerChar(c));
    assert Text.Lower([c]) == [Text.LowerChar(c)];
    assert FoldAccents([Text.LowerChar(c)]) == [f];
    assert Text.IsSpace(c) <==> Text.IsSpace(f);
    assert Strip([f]) == if KeptChar(f) then [f] else [] by {
      assert [f][1..] == [];
    }
    if Text.IsSpace(f) {
      assert Collapse([f]) == "-" + Collapse(Text.TrimStart([]));
    } else if KeptChar(f) {
      assert Collapse([f]) == [f] + Collapse([]);
    }
  }

  /** A character that folds to a plain letter is slugified to that letter. */
  lemma SlugOfLetter(c: char, f: char)
    requires FoldChar(Text.LowerChar(c)) == f && 'a' <= f <= 'z'
    ensures Slugify([c]) == [f]
  {
    assert !Text.IsSpace(c);
    assert SlugChar(f);
    SlugOfChar(c);
  }

  const AccentedA := "áàâãäÁÀÂÃÄ"
  const AccentedE := "éèêëÉÈÊË"
  const AccentedI := "íìîïÍÌÎÏ"
  const AccentedO := "óòôõöÓÒÔÕÖ"
  const AccentedU := "úùûüÚÙÛÜ"
  const Cedillas := "çÇ"

  /** The accented `a`s of both cases give `a`. */
  lemma AccentedAFolds()
    ensures forall i :: 0 <= i < |AccentedA| ==> Slugify([AccentedA[i]]) == "a"
  {
    forall i | 0 <= i < |AccentedA| ensures Slugify([AccentedA[i]]) == "a" {
      assert FoldChar(Text.LowerChar(AccentedA[i])) == 'a';
      SlugOfLetter(AccentedA[i], 'a');
    }
  }

  /** The accented `e`s of both cases give `e`. */
  lemma AccentedEFolds()
    ensures forall i :: 0 <= i < |AccentedE| ==> Slugify([AccentedE[i]]) == "e"
  {
    forall i | 0 <= i < |AccentedE| ensures Slugify([AccentedE[i]]) == "e" {
      assert FoldChar(Text.LowerChar(AccentedE[i])) == 'e';
      SlugOfLetter(AccentedE[i], 'e');
    }
  }

  /** The accented `i`s of both cases give `i`. */
  lemma AccentedIFolds()
    ensures forall i :: 0 <= i < |AccentedI| ==> Slugify([AccentedI[i]]) == "i"
  {
    forall i | 0 <= i < |AccentedI| ensures Slugify([AccentedI[i]]) == "i" {
      assert FoldChar(Text.LowerChar(AccentedI[i])) == 'i';
      SlugOfLetter(AccentedI[i], 'i');
    }
  }

  /** The accented `o`s of both cases give `o`. */
  lemma AccentedOFolds()
    ensures forall i :: 0 <= i < |AccentedO| ==> Slugify([AccentedO[i]]) == "o"
  {
    forall i | 0 <= i < |AccentedO| ensures Slugify([AccentedO[i]]) == "o" {
      assert FoldChar(Text.LowerChar(AccentedO[i])) == 'o';
      SlugOfLetter(AccentedO[i], 'o');
    }
  }

  /** The accented `u`s of both cases give `u`. */
  lemma AccentedUFolds()
    ensures forall i :: 0 <= i < |AccentedU| ==> Slugify([AccentedU[i]]) == "u"
  {
    forall i | 0 <= i < |AccentedU| ensures Slugify([AccentedU[i]]) == "u" {
      assert FoldChar(Text.LowerChar(AccentedU[i])) == 'u';
      SlugOfLetter(AccentedU[i], 'u');
    }
  }

  /** `ç` and `Ç` give `c`. */
  lemma CedillaFolds()
    ensures forall i :: 0 <= i < |Cedillas| ==> Slugify([Cedillas[i]]) == "c"
  {
    forall i | 0 <= i < |Cedillas| ensures Slugify([Cedillas[i]]) == "c" {
      assert FoldChar(Text.LowerChar(Cedillas[i])) == 'c';
      SlugOfLetter(Cedillas[i], 'c');
    }
  }

  // ---------------------------------------------------------------------------------------------
  // Listings

  /** Every admin listing shows 20 rows a page. */
  const PageSize := 20

  /** The pagination of `/admin/produtos` and `/admin/pedidos` over `rows` rows. */
  function Listing(parsedPage: Option<int>, rows: nat): (w: Paging.Window)
    ensures w.limit == 20 && w.page == Paging.PageNumber(parsedPage)
    ensures w.offset == (w.page - 1) * 20
    ensures w.pagination.total * 20 >= rows && (w.pagination.total > 0 ==> (w.pagination.total - 1) * 20 < rows)
    ensures (w.pagination.hasNext <==> w.page < w.pagination.total) && (w.pagination.hasPrev <==> w.page > 1)
  {
    Paging.Paginate(parsedPage, rows, PageSize)
  }

  /** `req.query.status || 'all'` on `/admin/pedidos`: the status the orders are filtered by, if any. */
  function StatusFilter(status: Option<string>): (filter: Option<string>)
    ensures filter.None? <==> status.None? || status.value == "" || status.value == "all"
    ensures filter.Some? ==> filter == status
  {
    if status.None? || status.value == "" || status.value == "all" then None else status
  }

  // ---------------------------------------------------------------------------------------------
  // The tables

  datatype CategoryRecord = CategoryRecord(name: string, slug: string, description: Option<string>,
                                           parentId: Option<int>, active: bool)

  /** The product form as parsed: prices in centavos, the `stock` field's `parseInt`, and the two check boxes. */
  datatype ProductForm = ProductForm(name: string, slug: string, price: int, stock: Option<int>,
                                     activeChecked: bool, featuredChecked: bool)

  datatype ProductRecord = ProductRecord(name: string, slug: string, price: int, stock: int, active: bool, featured: bool)

  /** A row of `product_categories`. */
  datatype Link = Link(productId: int, categoryId: int)

  datatype Store = Store(products: map<int, ProductRecord>, categories: map<int, CategoryRecord>, links: set<Link>)

  /** Why an admin route did not fully succeed. */
  datatype AdminError = Forbidden | CategoryInUse | StatementFailed

  /** The tables after a route, and its error if it had one. */
  datatype Outcome = Outcome(store: Store, error: Option<AdminError>)

  /** The admin routes that change tables: the category routes and the product routes answer differently. */
  datatype Route = CategoryCreate | CategoryDelete | ProductCreate | ProductUpdate | ProductSoftDelete

  predicate IsProductRoute(route: Route) {
    route.ProductCreate? || route.ProductUpdate? || route.ProductSoftDelete?
  }

  /** What a request is answered with: a redirect, or an error page with its status code. */
  datatype Answer = Redirect(path: string) | ErrorPage(code: int)

  /**
   * The answer of a route: 403 from the guard; a redirect to the listing on success; a failed statement
   * renders a 500 page on the product routes, whereas the category routes' `catch` blocks redirect.
   */
  function AnswerFor(route: Route, error: Option<AdminError>): (a: Answer)
    ensures a == ErrorPage(403) <==> error == Some(Forbidden)
    ensures a.ErrorPage? <==> error == Some(Forbidden) || (error == Some(StatementFailed) && IsProductRoute(route))
    ensures a.ErrorPage? ==> a.code == 403 || a.code == 500
    ensures error.None? ==> a == Redirect(if IsProductRoute(route) then "/admin/produtos" else "/admin/categorias")
    ensures !IsProductRoute(route) && error != Some(Forbidden) ==>
      a == Redirect(if route == CategoryCreate && error == Some(StatementFailed) then "/admin/categorias/nova" else "/admin/categorias")
  {
    match error
    case None => Redirect(if IsProductRoute(route) then "/admin/produtos" else "/admin/categorias")
    case Some(Forbidden) => ErrorPage(403)
    case Some(CategoryInUse) => Redirect("/admin/categorias")
    case Some(StatementFailed) =>
      if IsProductRoute(route) then ErrorPage(500)
      else if route == CategoryCreate then Redirect("/admin/categorias/nova")
      else Redirect("/admin/categorias")
  }

  /** The columns the product form writes: `parseInt(stock) || 0`, and `=== 'on'` for the check boxes. */
  function RecordOf(form: ProductForm): (r: ProductRecord)
    ensures r.stock == if form.stock.Some? then form.stock.value else 0
    ensures r.name == form.name && r.slug == form.slug && r.price == form.price
    ensures r.active == form.activeChecked && r.featured == form.featuredChecked
  {
    ProductRecord(form.name, form.slug, form.price, form.stock.GetOr(0), form.activeChecked, form.featuredChecked)
  }

  /** `x || null` on an optional text field. */
  function NullIfEmpty(s: Option<string>): Option<string> {
    if s.Some? && s.value != "" then s else None
  }

  /** The categories a product is linked to. */
  function Linked(links: set<Link>, p: int): set<int> {
    set l | l in links && l.productId == p :: l.categoryId
  }

  /** `DELETE FROM product_categories WHERE product_id = ?`. */
  function Unlink(links: set<Link>, p: int): (r: set<Link>)
    ensures forall l :: l in r <==> l in links && l.productId != p
  {
    set l | l in links && l.productId != p
  }

  predicate Distinct(ids: seq<int>) {
    forall i, j :: 0 <= i < j < |ids| ==> ids[i] != ids[j]
  }

  /** The `categories` form field: absent (or empty), a single value, or a list. */
  datatype CategoryField = Missing | One(id: int) | Many(ids: seq<int>)

  /** `Array.isArray(categories) ? categories : [categories]`, and nothing when the field is falsy. */
  function SubmittedIds(field: CategoryField): (ids: seq<int>)
    ensures field.Missing? ==> ids == []
    ensures field.One? ==> ids == [field.id]
    ensures field.Many? ==> ids == field.ids
  {
    match field
    case Missing => []
    case One(id) => [id]
    case Many(ids) => ids
  }

  /** The outcome of the link-insert loop: the links afterwards, and whether every insert succeeded. */
  datatype Inserted = Inserted(links: set<Link>, ok: bool)

  /**
   * The loop `for (const categoryId of categoryIds) INSERT INTO product_categories ...`: an insert fails on a
   * link that is already there (the primary key) or on a category outside `valid` (the foreign keys); the
   * first failure ends the loop.
   */
  function InsertLinks(links: set<Link>, p: int, ids: seq<int>, valid: set<int>): (r: Inserted)
    ensures |r.links| <= |links| + |ids|
    ensures r.ok ==> |r.links| == |links| + |ids|
    decreases |ids|
  {
    if ids == [] then Inserted(links, true)
    else if Link(p, ids[0]) in links || ids[0] !in valid then Inserted(links, false)
    else InsertLinks(links + {Link(p, ids[0])}, p, ids[1..], valid)
  }

  /**
   * The loop only ever adds links of product `p`; it succeeds exactly when the ids are distinct, all valid and
   * none already linked, and then it has added exactly one link per id.
   */
  lemma {:induction false} InsertLinksSpec(links: set<Link>, p: int, ids: seq<int>, valid: set<int>)
    ensures var r := InsertLinks(links, p, ids, valid);
      && links <= r.links
      && (forall l :: l in r.links && l.productId != p ==> l in links)
      && (forall l :: l in r.links ==> l in links || l.categoryId in valid)
      && (r.ok <==> Distinct(ids) && forall i :: 0 <= i < |ids| ==> ids[i] in valid && Link(p, ids[i]) !in links)
      && (r.ok ==> forall c :: Link(p, c) in r.links <==> Link(p, c) in links || c in ids)
    decreases |ids|
  {
    if ids != [] {
      var x := ids[0];
      if Link(p, x) in links || x !in valid {
      } else {
        var links' := links + {Link(p, x)};
        var rest := ids[1..];
        InsertLinksSpec(links', p, rest, valid);
        var r := InsertLinks(links', p, rest, valid);
        assert r == InsertLinks(links, p, ids, valid);
        var inner := Distinct(rest) && forall i :: 0 <= i < |rest| ==> rest[i] in valid && Link(p, rest[i]) !in links';
        var outer := Distinct(ids) && forall i :: 0 <= i < |ids| ==> ids[i] in valid && Link(p, ids[i]) !in links;
        if inner {
          forall i, j | 0 <= i < j < |ids| ensures ids[i] != ids[j] {
            if i == 0 {
              assert Link(p, rest[j - 1]) !in links';
            } else {
              assert rest[i - 1] != rest[j - 1];
            }
          }
          forall i | 0 <= i < |ids| ensures ids[i] in valid && Link(p, ids[i]) !in links {
            if i > 0 { assert rest[i - 1] == ids[i]; }
          }
        }
        if outer {
          forall i, j | 0 <= i < j < |rest| ensures rest[i] != rest[j] {
            assert ids[i + 1] != ids[j + 1];
          }
          forall i | 0 <= i < |rest| ensures rest[i] in valid && Link(p, rest[i]) !in links' {
            assert ids[i + 1] == rest[i] && ids[0] != ids[i + 1];
          }
        }
        if r.ok {
          forall c ensures Link(p, c) in r.links <==> Link(p, c) in links || c in ids {
            assert c in ids <==> c == x || c in rest;
          }
        }
      }
    }
  }

  lemma AllIn(ids: seq<int>, valid: set<int>)
    ensures (forall i :: 0 <= i < |ids| ==> ids[i] in valid) <==> (forall c :: c in ids ==> c in valid)
  {
    if forall i :: 0 <= i < |ids| ==> ids[i] in valid {
      forall c | c in ids ensures c in valid {
        var i :| 0 <= i < |ids| && ids[i] == c;
      }
    } else {
      var i :| 0 <= i < |ids| && ids[i] !in valid;
      var c := ids[i];
      assert c in ids && c !in valid;
    }
  }

  /**
   * Replacing a product's links (delete them all, then insert the submitted ids): links of other products are
   * never touched, and when every insert succeeds the product is linked to exactly the submitted categories.
   */
  lemma ReplaceLinksExact(links: set<Link>, p: int, ids: seq<int>, valid: set<int>)
    ensures var r := InsertLinks(Unlink(links, p), p, ids, valid);
      && (forall l: Link :: l.productId != p ==> (l in r.links <==> l in links))
      && (r.ok <==> Distinct(ids) && forall i :: 0 <= i < |ids| ==> ids[i] in valid)
      && (r.ok ==> Linked(r.links, p) == set i | i in ids)
  {
    var u := Unlink(links, p);
    InsertLinksSpec(u, p, ids, valid);
    var r := InsertLinks(u, p, ids, valid);
    if r.ok {
      forall c ensures c in Linked(r.links, p) <==> c in ids {
        if c in ids {
          assert Link(p, c) in r.links;
        }
      }
    }
  }

  // ---------------------------------------------------------------------------------------------
  // What each route does to the tables

  predicate CategorySlugTaken(categories: map<int, CategoryRecord>, slug: string) {
    exists k :: k in categories && categories[k].slug == slug
  }

  /** Some product other than `except` already has `slug`. */
  predicate ProductSlugTaken(products: map<int, ProductRecord>, slug: string, except: Option<int>) {
    exists k :: k in products && products[k].slug == slug && except != Some(k)
  }

  /** `POST /admin/categorias`; `newId` is the id the insert will be given. */
  function CreateCategory(s: Store, user: Option<Auth.SessionUser>, name: string, slug: Option<string>,
                          description: Option<string>, newId: int): (o: Outcome)
    ensures o.error == Some(Forbidden) <==> !IsAdmin(user)
    ensures o.error.None? <==> IsAdmin(user) && newId !in s.categories && !CategorySlugTaken(s.categories, FinalSlug(slug, name))
    ensures o.error.Some? ==> o.store == s && o.error != Some(CategoryInUse)
    ensures o.error.None? ==>
      && o.store.products == s.products && o.store.links == s.links
      && o.store.categories.Keys == s.categories.Keys + {newId}
      && (forall k :: k in s.categories ==> o.store.categories[k] == s.categories[k])
      && o.store.categories[newId].slug == FinalSlug(slug, name) && o.store.categories[newId].parentId.None?
  {
    if !IsAdmin(user) then Outcome(s, Some(Forbidden))
    else
      var finalSlug := FinalSlug(slug, name);
      if newId in s.categories || CategorySlugTaken(s.categories, finalSlug) then Outcome(s, Some(StatementFailed))
      else Outcome(s.(categories := s.categories[newId := CategoryRecord(name, finalSlug, NullIfEmpty(description), None, true)]), None)
  }

  /**
   * `POST /admin/categorias/:id/deletar`: refused while any link names the category; otherwise the row is
   * deleted, unless another category names it as parent, which the foreign key refuses.
   */
  function DeleteCategory(s: Store, user: Option<Auth.SessionUser>, id: int): (o: Outcome)
    ensures o.error.None? <==> IsAdmin(user) && (forall l :: l in s.links ==> l.categoryId != id)
                               && (forall k :: k in s.categories ==> s.categories[k].parentId != Some(id))
    ensures o.error.Some? ==> o.store == s
    ensures o.error.None? ==>
      && o.store.products == s.products && o.store.links == s.links
      && id !in o.store.categories
      && forall k :: k != id ==> (k in o.store.categories <==> k in s.categories)
                                 && (k in s.categories ==> o.store.categories[k] == s.categories[k])
  {
    if !IsAdmin(user) then Outcome(s, Some(Forbidden))
    else if exists l :: l in s.links && l.categoryId == id then Outcome(s, Some(CategoryInUse))
    else if exists k :: k in s.categories && s.categories[k].parentId == Some(id) then Outcome(s, Some(StatementFailed))
    else Outcome(s.(categories := s.categories - {id}), None)
  }

  /** `POST /admin/produtos`: insert the product; then its links, stopping at the first insert that fails. */
  function CreateProduct(s: Store, user: Option<Auth.SessionUser>, form: ProductForm, field: CategoryField, newId: int): (o: Outcome)
    ensures o.error == Some(Forbidden) <==> !IsAdmin(user)
    ensures o.error != Some(CategoryInUse) && o.store.categories == s.categories
    ensures !(IsAdmin(user) && newId !in s.products && !ProductSlugTaken(s.products, form.slug, None)) ==> o.store == s
    ensures IsAdmin(user) && newId !in s.products && !ProductSlugTaken(s.products, form.slug, None) ==>
      o.store.products == s.products[newId := RecordOf(form)]
  {
    if !IsAdmin(user) then Outcome(s, Some(Forbidden))
    else if newId in s.products || ProductSlugTaken(s.products, form.slug, None) then Outcome(s, Some(StatementFailed))
    else
      var ins := InsertLinks(s.links, newId, SubmittedIds(field), s.categories.Keys);
      Outcome(Store(s.products[newId := RecordOf(form)], s.categories, ins.links), if ins.ok then None else Some(StatementFailed))
  }

  /** The categories a link to product `id` may name: none when the product does not exist (its foreign key fails). */
  function ValidCategories(s: Store, id: int): set<int> {
    if id in s.products then s.categories.Keys else {}
  }

  /**
   * `POST /admin/produtos/:id`: update the row, drop the product's links, then insert the submitted ones,
   * stopping at the first insert that fails. An unknown id matches no row, so the update checks no slug.
   */
  function UpdateProduct(s: Store, user: Option<Auth.SessionUser>, id: int, form: ProductForm, field: CategoryField): (o: Outcome)
    ensures o.error == Some(Forbidden) <==> !IsAdmin(user)
    ensures o.error != Some(CategoryInUse) && o.store.categories == s.categories
    ensures !(IsAdmin(user) && !(id in s.products && ProductSlugTaken(s.products, form.slug, Some(id)))) ==> o.store == s
    ensures IsAdmin(user) && !(id in s.products && ProductSlugTaken(s.products, form.slug, Some(id))) ==>
      o.store.products == if id in s.products then s.products[id := RecordOf(form)] else s.products
  {
    if !IsAdmin(user) then Outcome(s, Some(Forbidden))
    else if id in s.products && ProductSlugTaken(s.products, form.slug, Some(id)) then Outcome(s, Some(StatementFailed))
    else
      var products := if id in s.products then s.products[id := RecordOf(form)] else s.products;
      var ins := InsertLinks(Unlink(s.links, id), id, SubmittedIds(field), ValidCategories(s, id));
      Outcome(Store(products, s.categories, ins.links), if ins.ok then None else Some(StatementFailed))
  }

  /** `POST /admin/produtos/:id/deletar`: only `active` of that product changes, to false. */
  function SoftDeleteProduct(s: Store, user: Option<Auth.SessionUser>, id: int): (o: Outcome)
    ensures o.error.None? <==> IsAdmin(user)
    ensures o.store.categories == s.categories && o.store.links == s.links
    ensures o.store.products.Keys == s.products.Keys
    ensures forall k :: k in s.products ==>
      o.store.products[k] == if IsAdmin(user) && k == id then s.products[k].(active := false) else s.products[k]
  {
    if !IsAdmin(user) then Outcome(s, Some(Forbidden))
    else if id in s.products then Outcome(s.(products := s.products[id := s.products[id].(active := false)]), None)
    else Outcome(s, None)
  }

  // ---------------------------------------------------------------------------------------------
  // Properties of the routes

  /** Every route answers 403 and leaves the tables alone unless the session user is an administrator. */
  lemma NonAdminChangesNothing(s: Store, user: Option<Auth.SessionUser>, id: int, form: ProductForm, field: CategoryField,
                               name: string, slug: Option<string>, description: Option<string>)
    requires !IsAdmin(user)
    ensures CreateCategory(s, user, name, slug, description, id) == Outcome(s, Some(Forbidden))
    ensures DeleteCategory(s, user, id) == Outcome(s, Some(Forbidden))
    ensures CreateProduct(s, user, form, field, id) == Outcome(s, Some(Forbidden))
    ensures UpdateProduct(s, user, id, form, field) == Outcome(s, Some(Forbidden))
    ensures SoftDeleteProduct(s, user, id) == Outcome(s, Some(Forbidden))
    ensures forall r :: AnswerFor(r, Some(Forbidden)) == ErrorPage(403)
  {
  }

  /** An administrator's category requests are always answered with a redirect, never with an error page. */
  lemma CategoryRoutesRedirect(s: Store, user: Option<Auth.SessionUser>, id: int, name: string, slug: Option<string>,
                               description: Option<string>)
    requires IsAdmin(user)
    ensures AnswerFor(CategoryDelete, DeleteCategory(s, user, id).error) == Redirect("/admin/categorias")
    ensures AnswerFor(CategoryCreate, CreateCategory(s, user, name, slug, description, id).error).Redirect?
  {
  }

  /**
   * After a product update that succeeds, the product's links are exactly the submitted categories (a single
   * value counting as a one-element list); other products' links are the same as before, whatever happens.
   */
  lemma UpdateProductLinks(s: Store, user: Option<Auth.SessionUser>, id: int, form: ProductForm, field: CategoryField)
    requires IsAdmin(user) && !(id in s.products && ProductSlugTaken(s.products, form.slug, Some(id)))
    ensures var o := UpdateProduct(s, user, id, form, field);
      && (forall l: Link :: l.productId != id ==> (l in o.store.links <==> l in s.links))
      && (o.error.None? <==> Distinct(SubmittedIds(field)) && forall c :: c in SubmittedIds(field) ==> c in ValidCategories(s, id))
      && (o.error.None? ==> Linked(o.store.links, id) == set c | c in SubmittedIds(field))
      && (id in s.products ==> o.store.products == s.products[id := RecordOf(form)])
  {
    var ids := SubmittedIds(field);
    ReplaceLinksExact(s.links, id, ids, ValidCategories(s, id));
    AllIn(ids, ValidCategories(s, id));
  }

  /** A product created with distinct, existing categories is linked to exactly those. */
  lemma CreateProductLinks(s: Store, user: Option<Auth.SessionUser>, form: ProductForm, field: CategoryField, newId: int)
    requires IsAdmin(user) && newId !in s.products && !ProductSlugTaken(s.products, form.slug, None)
    requires forall l :: l in s.links ==> l.productId in s.products
    ensures var o := CreateProduct(s, user, form, field, newId);
      && o.store.products == s.products[newId := RecordOf(form)]
      && (forall l: Link :: l.productId != newId ==> (l in o.store.links <==> l in s.links))
      && (o.error.None? <==> Distinct(SubmittedIds(field)) && forall c :: c in SubmittedIds(field) ==> c in s.categories)
      && (o.error.None? ==> Linked(o.store.links, newId) == set c | c in SubmittedIds(field))
  {
    var ids := SubmittedIds(field);
    assert Unlink(s.links, newId) == s.links;
    ReplaceLinksExact(s.links, newId, ids, s.categories.Keys);
    AllIn(ids, s.categories.Keys);
  }

  /** The store's integrity: every link names an existing product and category; slugs are unique in each table. */
  predicate Consistent(s: Store) {
    && (forall l :: l in s.links ==> l.productId in s.products && l.categoryId in s.categories)
    && (forall a, b :: a in s.products && b in s.products && a != b ==> s.products[a].slug != s.products[b].slug)
    && (forall a, b :: a in s.categories && b in s.categories && a != b ==> s.categories[a].slug != s.categories[b].slug)
  }

  /** Creating a category keeps the store consistent: a taken slug or id is refused. */
  lemma CreateCategoryKeepsConsistent(s: Store, user: Option<Auth.SessionUser>, name: string, slug: Option<string>,
                                      description: Option<string>, newId: int)
    requires Consistent(s)
    ensures Consistent(CreateCategory(s, user, name, slug, description, newId).store)
  {
  }

  /** Deleting a category keeps the store consistent: a category still linked is never removed. */
  lemma DeleteCategoryKeepsConsistent(s: Store, user: Option<Auth.SessionUser>, id: int)
    requires Consistent(s)
    ensures Consistent(DeleteCategory(s, user, id).store)
  {
  }

  /** Creating a product keeps the store consistent, even when the link loop stops midway. */
  lemma CreateProductKeepsConsistent(s: Store, user: Option<Auth.SessionUser>, form: ProductForm, field: CategoryField, newId: int)
    requires Consistent(s)
    ensures Consistent(CreateProduct(s, user, form, field, newId).store)
  {
    if IsAdmin(user) && newId !in s.products && !ProductSlugTaken(s.products, form.slug, None) {
      InsertLinksSpec(s.links, newId, SubmittedIds(field), s.categories.Keys);
    }
  }

  /** Updating a product keeps the store consistent, even when the link loop stops midway. */
  lemma UpdateProductKeepsConsistent(s: Store, user: Option<Auth.SessionUser>, id: int, form: ProductForm, field: CategoryField)
    requires Consistent(s)
    ensures Consistent(UpdateProduct(s, user, id, form, field).store)
  {
    if IsAdmin(user) && !(id in s.products && ProductSlugTaken(s.products, form.slug, Some(id))) {
      InsertLinksSpec(Unlink(s.links, id), id, SubmittedIds(field), ValidCategories(s, id));
      var o := UpdateProduct(s, user, id, form, field).store;
      forall l | l in o.links ensures l.productId in o.products && l.categoryId in o.categories {
        if l.productId == id {
          assert l.categoryId in ValidCategories(s, id);
        }
      }
    }
  }

  /** Soft-deleting a product keeps the store consistent. */
  lemma SoftDeleteKeepsConsistent(s: Store, user: Option<Auth.SessionUser>, id: int)
    requires Consistent(s)
    ensures Consistent(SoftDeleteProduct(s, user, id).store)
  {
  }

  // ---------------------------------------------------------------------------------------------
  // The back office, statement by statement

  /** The tables the admin routes change. */
  class BackOffice {
    var products: map<int, ProductRecord>
    var categories: map<int, CategoryRecord>
    var links: set<Link>

    function Snapshot(): Store
      reads this
    {
      Store(products, categories, links)
    }

    constructor (s: Store)
      ensures Snapshot() == s
    {
      products, categories, links := s.products, s.categories, s.links;
    }

    method CreateCategoryRoute(user: Option<Auth.SessionUser>, name: string, slug: Option<string>,
                               description: Option<string>, newId: int) returns (error: Option<AdminError>)
      modifies this
      ensures Outcome(Snapshot(), error) == CreateCategory(old(Snapshot()), user, name, slug, description, newId)
    {
      if !IsAdmin(user) {
        return Some(Forbidden);
      }
      var finalSlug := FinalSlug(slug, name);
      if newId in categories || CategorySlugTaken(categories, finalSlug) {
        return Some(StatementFailed);
      }
      categories := categories[newId := CategoryRecord(name, finalSlug, NullIfEmpty(description), None, true)];
      error := None;
    }

    method DeleteCategoryRoute(user: Option<Auth.SessionUser>, id: int) returns (error: Option<AdminError>)
      modifies this
      ensures Outcome(Snapshot(), error) == DeleteCategory(old(Snapshot()), user, id)
    {
      if !IsAdmin(user) {
        return Some(Forbidden);
      }
      if exists l :: l in links && l.categoryId == id {
        return Some(CategoryInUse);
      }
      if exists k :: k in categories && categories[k].parentId == Some(id) {
        return Some(StatementFailed);
      }
      categories := categories - {id};
      error := None;
    }

    /** The link-insert loop, one statement per submitted id. */
    method InsertLinksLoop(p: int, ids: seq<int>, valid: set<int>) returns (ok: bool)
      modifies this
      ensures Inserted(links, ok) == InsertLinks(old(links), p, ids, valid)
      ensures products == old(products) && categories == old(categories)
    {
      ghost var target := InsertLinks(links, p, ids, valid);
      var i := 0;
      while i < |ids|
        invariant 0 <= i <= |ids|
        invariant InsertLinks(links, p, ids[i..], valid) == target
        invariant products == old(products) && categories == old(categories)
      {
        var categoryId := ids[i];
        assert ids[i..][1..] == ids[i + 1..];
        if Link(p, categoryId) in links || categoryId !in valid {
          return false;
        }
        links := links + {Link(p, categoryId)};
        i := i + 1;
      }
      ok := true;
    }

    method CreateProductRoute(user: Option<Auth.SessionUser>, form: ProductForm, field: CategoryField, newId: int)
      returns (error: Option<AdminError>)
      modifies this
      ensures Outcome(Snapshot(), error) == CreateProduct(old(Snapshot()), user, form, field, newId)
    {
      if !IsAdmin(user) {
        return Some(Forbidden);
      }
      if newId in products || ProductSlugTaken(products, form.slug, None) {
        return Some(StatementFailed);
      }
      products := products[newId := RecordOf(form)];
      var ok := InsertLinksLoop(newId, SubmittedIds(field), categories.Keys);
      error := if ok then None else Some(StatementFailed);
    }

    method UpdateProductRoute(user: Option<Auth.SessionUser>, id: int, form: ProductForm, field: CategoryField)
      returns (error: Option<AdminError>)
      modifies this
      ensures Outcome(Snapshot(), error) == UpdateProduct(old(Snapshot()), user, id, form, field)
    {
      if !IsAdmin(user) {
        return Some(Forbidden);
      }
      if id in products && ProductSlugTaken(products, form.slug, Some(id)) {
        return Some(StatementFailed);
      }
      var valid := if id in products then categories.Keys else {};
      if id in products {
        products := products[id := RecordOf(form)];
      }
      links := Unlink(links, id);
      var ok := InsertLinksLoop(id, SubmittedIds(field), valid);
      error := if ok then None else Some(StatementFailed);
    }

    method SoftDeleteProductRoute(user: Option<Auth.SessionUser>, id: int) returns (error: Option<AdminError>)
      modifies this
      ensures Outcome(Snapshot(), error) == SoftDeleteProduct(old(Snapshot()), user, id)
    {
      if !IsAdmin(user) {
        return Some(Forbidden);
      }
      if id in products {
        products := products[id := products[id].(active := false)];
      }
      error := None;
    }
  }
}
