/**
 * The catalog pages of routes/products.js: the sort and category filters of the listing, its pagination,
 * and on the product page the image fallback, the grouping of variants by name, and the availability that
 * the structured data announces. The queries themselves are the database's; their results are inputs.
 */
module Catalog {
  import opened Wrappers
  import Paging

  // ---------------------------------------------------------------------------------------------
  // The listing (`GET /produtos`)

  /** The `ORDER BY` the listing uses. */
  datatype Ordering = NewestFirst | PriceAscending | PriceDescending | NameAscending | FeaturedThenNewest

  /** `req.query.sort || 'newest'`: the sort value the page echoes back in its filters. */
  function SortValue(sort: Option<string>): (v: string)
    ensures sort.Some? && sort.value != "" ==> v == sort.value
    ensures sort.None? || sort.value == "" ==> v == "newest"
  {
    if sort.Some? && sort.value != "" then sort.value else "newest"
  }

  /** The `switch (sort)`: four keys choose their ordering; every other value, `newest` included, falls back to newest first. */
  function OrderingFor(sort: string): (o: Ordering)
    ensures sort == "price_asc" <==> o == PriceAscending
    ensures sort == "price_desc" <==> o == PriceDescending
    ensures sort == "name_asc" <==> o == NameAscending
    ensures sort == "featured" <==> o == FeaturedThenNewest
    ensures o == NewestFirst <==> sort !in ["price_asc", "price_desc", "name_asc", "featured"]
  {
    if sort == "price_asc" then PriceAscending
    else if sort == "price_desc" then PriceDescending
    else if sort == "name_asc" then NameAscending
    else if sort == "featured" then FeaturedThenNewest
    else NewestFirst
  }

  /** An absent or empty `sort` lists newest first. */
  lemma DefaultSortIsNewest(sort: Option<string>)
    requires sort.None? || sort.value == ""
    ensures OrderingFor(SortValue(sort)) == NewestFirst
  {
  }

  /** `if (category)`: the category slug the listing is filtered by, when one was given. */
  function CategoryFilter(categoria: Option<string>): (slug: Option<string>)
    ensures slug.None? <==> categoria.None? || categoria.value == ""
    ensures slug.Some? ==> slug == categoria
  {
    if categoria.Some? && categoria.value != "" then categoria else None
  }

  /** The listing shows 12 products a page. */
  const PageSize := 12

  function Listing(parsedPage: Option<int>, rows: nat): (w: Paging.Window)
    ensures w.limit == 12 && w.page == Paging.PageNumber(parsedPage)
    ensures w.offset == (w.page - 1) * 12
    ensures w.pagination.total * 12 >= rows && (w.pagination.total > 0 ==> (w.pagination.total - 1) * 12 < rows)
    ensures (w.pagination.hasNext <==> w.page < w.pagination.total) && (w.pagination.hasPrev <==> w.page > 1)
  {
    Paging.Paginate(parsedPage, rows, PageSize)
  }

  // ---------------------------------------------------------------------------------------------
  // The product page (`GET /produtos/:slug`)

  /** An entry of the page's `images`; a fallback entry has no id. */
  datatype Image = Image(id: Option<int>, filename: string, isPrimary: bool, altText: string)

  /** The product columns the page's fallbacks read. */
  datatype ProductInfo = ProductInfo(name: string, image: Option<string>, stock: int)

  /**
   * The images shown: the product_images rows if there are any; otherwise one primary entry for the
   * product's own image, if it has a non-empty one; otherwise one primary `placeholder.svg` entry.
   */
  function Images(rows: seq<Image>, product: ProductInfo): (images: seq<Image>)
    ensures |images| >= 1
    ensures |rows| > 0 ==> images == rows
    ensures |rows| == 0 && product.image.Some? && product.image.value != "" ==>
      images == [Image(None, product.image.value, true, product.name)]
    ensures |rows| == 0 && (product.image.None? || product.image.value == "") ==>
      images == [Image(None, "placeholder.svg", true, product.name)]
  {
    if |rows| == 0 && product.image.Some? && product.image.value != "" then
      [Image(None, product.image.value, true, product.name)]
    else if |rows| == 0 then
      [Image(None, "placeholder.svg", true, product.name)]
    else rows
  }

  /** `meta_image`: the first image's file name, which always exists and is never empty without image rows. */
  lemma MetaImageAlwaysPresent(rows: seq<Image>, product: ProductInfo)
    ensures |Images(rows, product)| > 0
    ensures |rows| == 0 ==> Images(rows, product)[0].filename != "" && Images(rows, product)[0].isPrimary
  {
  }

  datatype Availability = InStock | OutOfStock

  /** The `offers.availability` of the structured data. */
  function AvailabilityOf(product: ProductInfo): (a: Availability)
    ensures a == InStock <==> product.stock > 0
  {
    if product.stock > 0 then InStock else OutOfStock
  }

  function AvailabilityUrl(a: Availability): string {
    match a
    case InStock => "https://schema.org/InStock"
    case OutOfStock => "https://schema.org/OutOfStock"
  }

  // ---------------------------------------------------------------------------------------------
  // Variant groups

  /** A row of product_variants, as the page reads it (already filtered to the product's active variants). */
  datatype Variant = Variant(id: int, name: string, value: string, priceAdjustment: Option<int>, stock: int)

  /** The variants named `n`, in input order. */
  function OfName(vs: seq<Variant>, n: string): (r: seq<Variant>)
    ensures |r| <= |vs|
    ensures forall v :: v in r <==> v in vs && v.name == n
    ensures (forall j :: 0 <= j < |vs| ==> vs[j].name != n) ==> r == []
  {
    if |vs| == 0 then []
    else
      var init := OfName(vs[..|vs| - 1], n);
      var v := vs[|vs| - 1];
      assert forall w :: w in vs <==> w in vs[..|vs| - 1] || w == v;
      if v.name == n then init + [v] else init
  }

  /** The distinct variant names, in order of first appearance: the order in which the groups are created. */
  function FirstNames(vs: seq<Variant>): (names: seq<string>)
    ensures forall i, j :: 0 <= i < j < |names| ==> names[i] != names[j]
    ensures forall n :: n in names <==> exists j :: 0 <= j < |vs| && vs[j].name == n
  {
    if |vs| == 0 then []
    else
      var init := FirstNames(vs[..|vs| - 1]);
      var v := vs[|vs| - 1];
      assert forall j :: 0 <= j < |vs| - 1 ==> vs[..|vs| - 1][j] == vs[j];
      if v.name in init then init else init + [v.name]
  }

  /** Grouping distributes over concatenation: within a group, variants keep the order they had in the input. */
  lemma {:induction false} OfNameAppend(a: seq<Variant>, b: seq<Variant>, n: string)
    ensures OfName(a + b, n) == OfName(a, n) + OfName(b, n)
    decreases |b|
  {
    if b == [] {
      assert a + b == a;
    } else {
      assert (a + b)[..|a + b| - 1] == a + b[..|b| - 1];
      assert (a + b)[|a + b| - 1] == b[|b| - 1];
      OfNameAppend(a, b[..|b| - 1], n);
    }
  }

  /** One more variant: its name is added if new, and it joins the group of its own name only. */
  lemma GroupStep(vs: seq<Variant>, i: nat)
    requires i < |vs|
    ensures FirstNames(vs[..i + 1]) ==
      if vs[i].name in FirstNames(vs[..i]) then FirstNames(vs[..i]) else FirstNames(vs[..i]) + [vs[i].name]
    ensures forall n :: OfName(vs[..i + 1], n) == OfName(vs[..i], n) + (if vs[i].name == n then [vs[i]] else [])
  {
    assert vs[..i + 1][..i] == vs[..i];
  }

  /**
   * The `forEach` that builds `variantGroups`: a group is created the first time its name is seen and each
   * variant is pushed onto its own group. `names` is the order in which the groups were created.
   */
  method GroupVariants(variants: seq<Variant>) returns (groups: map<string, seq<Variant>>, names: seq<string>)
    ensures names == FirstNames(variants)
    ensures forall n :: n in groups <==> n in names
    ensures forall n :: n in groups ==> groups[n] == OfName(variants, n)
  {
    groups := map[];
    names := [];
    var i := 0;
    while i < |variants|
      invariant 0 <= i <= |variants|
      invariant names == FirstNames(variants[..i])
      invariant forall n :: n in groups <==> n in names
      invariant forall n :: n in groups ==> groups[n] == OfName(variants[..i], n)
    {
      var variant := variants[i];
      GroupStep(variants, i);
      if variant.name !in groups {
        groups := groups[variant.name := []];
        names := names + [variant.name];
      }
      groups := groups[variant.name := groups[variant.name] + [variant]];
      i := i + 1;
    }
    assert variants[..i] == variants;
  }

  /** How many times `x` occurs in `names`. */
  function Occurrences(names: seq<string>, x: string): nat {
    if |names| == 0 then 0 else (if names[0] == x then 1 else 0) + Occurrences(names[1..], x)
  }

  /** The sizes of the groups named in `names`. */
  function GroupSizes(vs: seq<Variant>, names: seq<string>): nat {
    if |names| == 0 then 0 else |OfName(vs, names[0])| + GroupSizes(vs, names[1..])
  }

  lemma {:induction false} OccurrencesDistinct(names: seq<string>, x: string)
    requires forall i, j :: 0 <= i < j < |names| ==> names[i] != names[j]
    ensures Occurrences(names, x) == if x in names then 1 else 0
  {
    if |names| > 0 {
      OccurrencesDistinct(names[1..], x);
      if names[0] == x {
        assert x !in names[1..] by {
          forall j | 0 <= j < |names[1..]| ensures names[1..][j] != x { assert names[j + 1] != names[0]; }
        }
      } else {
        assert x in names <==> x in names[1..] by {
          if x in names { var j :| 0 <= j < |names| && names[j] == x; assert names[1..][j - 1] == x; }
        }
      }
    }
  }

  /** One more variant adds one to the sizes of every listed group bearing its name. */
  lemma {:induction false} GroupSizesStep(vs: seq<Variant>, v: Variant, names: seq<string>)
    ensures GroupSizes(vs + [v], names) == GroupSizes(vs, names) + Occurrences(names, v.name)
  {
    if |names| > 0 {
      GroupSizesStep(vs, v, names[1..]);
      assert (vs + [v])[..|vs + [v]| - 1] == vs;
    }
  }

  lemma GroupSizesAppendName(vs: seq<Variant>, names: seq<string>, n: string)
    ensures GroupSizes(vs, names + [n]) == GroupSizes(vs, names) + |OfName(vs, n)|
    decreases |names|
  {
    if |names| > 0 {
      assert (names + [n])[1..] == names[1..] + [n];
      GroupSizesAppendName(vs, names[1..], n);
    } else {
      assert [n][1..] == [];
    }
  }

  /** The groups partition the variants: every variant is in the group of its own name only, and the group sizes add up to the number of variants. */
  lemma {:induction false} GroupsPartition(vs: seq<Variant>)
    ensures GroupSizes(vs, FirstNames(vs)) == |vs|
    ensures forall v :: v in vs ==> v in OfName(vs, v.name) && v.name in FirstNames(vs)
    ensures forall v, n :: v in OfName(vs, n) ==> n == v.name
  {
    if |vs| > 0 {
      var init := vs[..|vs| - 1];
      var v := vs[|vs| - 1];
      assert vs == init + [v];
      GroupsPartition(init);
      var names := FirstNames(init);
      GroupSizesStep(init, v, names);
      OccurrencesDistinct(names, v.name);
      if v.name !in names {
        GroupSizesAppendName(vs, names, v.name);
        assert OfName(vs, v.name) == OfName(init, v.name) + [v];
        assert OfName(init, v.name) == [];
      }
    }
  }
}
