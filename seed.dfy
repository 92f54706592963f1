/**
 * The product part of scripts/init-database.js: each sample product is inserted, its variants share the
 * product's stock equally, and the product is linked to the category its name suggests. The database is
 * the `Seeder`'s two tables; the ids the inserts return and the ids the category lookups find are inputs.
 */
module Seed {
  import opened Wrappers
  import Text

  // ---------------------------------------------------------------------------------------------
  // Choosing a category

  /** The slugs of the categories and the subcategories the script creates before the products. */
  const SeededSlugs: seq<string> := [
    "pelúcias", "colecao-bebezitos", "personagens", "chaveiros", "camisetas", "receitas", "acessórios",
    "ecobags", "miseryswin",
    "ghibli", "sanrio", "hora-de-aventura", "super-mario", "bee-and-puppycat", "pokemon", "one-piece",
    "hollow-knight"]

  /** The slug a product ends in when none of the keywords occurs in its name. */
  const DefaultSlug := "pelúcias"

  /**
   * The `if`/`else if` chain over the lowercased name: keychains (`chaveiro`, `porta`), then recipes,
   * then Ghibli (`ghibli`, `totoro`), then Sanrio (`sanrio`, `hello kitty`), then Pokémon (`pokemon`,
   * `pikachu`), and plush toys otherwise.
   */
  function CategorySlugFor(name: string): string {
    var lower := Text.Lower(name);
    if Text.Contains(lower, "chaveiro") || Text.Contains(lower, "porta") then "chaveiros"
    else if Text.Contains(lower, "receita") then "receitas"
    else if Text.Contains(lower, "ghibli") || Text.Contains(lower, "totoro") then "ghibli"
    else if Text.Contains(lower, "sanrio") || Text.Contains(lower, "hello kitty") then "sanrio"
    else if Text.Contains(lower, "pokemon") || Text.Contains(lower, "pikachu") then "pokemon"
    else DefaultSlug
  }

  /** Every slug the chain picks is one of the categories the script created. */
  lemma CategorySlugSeeded(name: string)
    ensures CategorySlugFor(name) in SeededSlugs
  {
  }

  /** The default is chosen exactly when no keyword occurs in the lowercased name. */
  lemma CategorySlugDefault(name: string)
    ensures var lower := Text.Lower(name);
      (!Text.Contains(lower, "chaveiro") && !Text.Contains(lower, "porta") && !Text.Contains(lower, "receita") &&
       !Text.Contains(lower, "ghibli") && !Text.Contains(lower, "totoro") && !Text.Contains(lower, "sanrio") &&
       !Text.Contains(lower, "hello kitty") && !Text.Contains(lower, "pokemon") && !Text.Contains(lower, "pikachu"))
      <==> CategorySlugFor(name) == DefaultSlug
  {
  }

  /** A rule of the classification: any of its keywords in the name selects its slug. */
  datatype Rule = Rule(keywords: seq<string>, slug: string)

  /** The chain as a table, in priority order. */
  const Rules: seq<Rule> := [
    Rule(["chaveiro", "porta"], "chaveiros"),
    Rule(["receita"], "receitas"),
    Rule(["ghibli", "totoro"], "ghibli"),
    Rule(["sanrio", "hello kitty"], "sanrio"),
    Rule(["pokemon", "pikachu"], "pokemon")]

  /** Some keyword occurs in `text`. */
  predicate AnyIn(text: string, keywords: seq<string>) {
    exists k :: 0 <= k < |keywords| && Text.Contains(text, keywords[k])
  }

  /** The slug of the first rule with a keyword in `text`, or `fallback`. */
  function FirstMatch(rules: seq<Rule>, text: string, fallback: string): string {
    if |rules| == 0 then fallback
    else if AnyIn(text, rules[0].keywords) then rules[0].slug
    else FirstMatch(rules[1..], text, fallback)
  }

  /** No rule before index `k` applies. */
  predicate NoneApplyBefore(rules: seq<Rule>, text: string, k: int) {
    forall j :: 0 <= j < k && j < |rules| ==> !AnyIn(text, rules[j].keywords)
  }

  /** With no rule applying, the fallback is used. */
  lemma {:induction false} FirstMatchNone(rules: seq<Rule>, text: string, fallback: string)
    requires NoneApplyBefore(rules, text, |rules|)
    ensures FirstMatch(rules, text, fallback) == fallback
  {
    if |rules| > 0 {
      assert !AnyIn(text, rules[0].keywords);
      assert NoneApplyBefore(rules[1..], text, |rules[1..]|) by {
        forall j | 0 <= j < |rules[1..]| ensures !AnyIn(text, rules[1..][j].keywords) { assert rules[1..][j] == rules[j + 1]; }
      }
      FirstMatchNone(rules[1..], text, fallback);
    }
  }

  /** The first rule that applies decides. */
  lemma {:induction false} FirstMatchAt(rules: seq<Rule>, text: string, fallback: string, i: nat)
    requires i < |rules| && AnyIn(text, rules[i].keywords) && NoneApplyBefore(rules, text, i)
    ensures FirstMatch(rules, text, fallback) == rules[i].slug
  {
    if i > 0 {
      assert !AnyIn(text, rules[0].keywords);
      assert rules[1..][i - 1] == rules[i];
      assert NoneApplyBefore(rules[1..], text, i - 1) by {
        forall j | 0 <= j < i - 1 ensures !AnyIn(text, rules[1..][j].keywords) { assert rules[1..][j] == rules[j + 1]; }
      }
      FirstMatchAt(rules[1..], text, fallback, i - 1);
    }
  }

  lemma AnyInPair(text: string, a: string, b: string)
    ensures AnyIn(text, [a, b]) <==> Text.Contains(text, a) || Text.Contains(text, b)
  {
    if Text.Contains(text, a) {
      assert [a, b][0] == a;
    } else if Text.Contains(text, b) {
      assert [a, b][1] == b;
    }
  }

  lemma AnyInOne(text: string, a: string)
    ensures AnyIn(text, [a]) <==> Text.Contains(text, a)
  {
    if Text.Contains(text, a) {
      assert [a][0] == a;
    }
  }

  /** The chain of the script and the rule table choose the same slug for every name. */
  lemma CategorySlugFollowsRules(name: string)
    ensures CategorySlugFor(name) == FirstMatch(Rules, Text.Lower(name), DefaultSlug)
  {
    var lower := Text.Lower(name);
    AnyInPair(lower, "chaveiro", "porta");
    AnyInOne(lower, "receita");
    AnyInPair(lower, "ghibli", "totoro");
    AnyInPair(lower, "sanrio", "hello kitty");
    AnyInPair(lower, "pokemon", "pikachu");
    var r1 := Rules[1..];
    var r2 := r1[1..];
    var r3 := r2[1..];
    var r4 := r3[1..];
    assert r4 == [Rule(["pokemon", "pikachu"], "pokemon")];
    assert FirstMatch(r4[1..], lower, DefaultSlug) == DefaultSlug;
    assert FirstMatch(r4, lower, DefaultSlug) == if AnyIn(lower, ["pokemon", "pikachu"]) then "pokemon" else DefaultSlug;
    assert r3 == [Rule(["sanrio", "hello kitty"], "sanrio")] + r4;
    assert FirstMatch(r3, lower, DefaultSlug) == if AnyIn(lower, ["sanrio", "hello kitty"]) then "sanrio" else FirstMatch(r4, lower, DefaultSlug);
    assert r2 == [Rule(["ghibli", "totoro"], "ghibli")] + r3;
    assert FirstMatch(r2, lower, DefaultSlug) == if AnyIn(lower, ["ghibli", "totoro"]) then "ghibli" else FirstMatch(r3, lower, DefaultSlug);
    assert r1 == [Rule(["receita"], "receitas")] + r2;
    assert FirstMatch(r1, lower, DefaultSlug) == if AnyIn(lower, ["receita"]) then "receitas" else FirstMatch(r2, lower, DefaultSlug);
    assert FirstMatch(Rules, lower, DefaultSlug) == if AnyIn(lower, ["chaveiro", "porta"]) then "chaveiros" else FirstMatch(r1, lower, DefaultSlug);
  }

  /** Keywords are checked in priority order: a keychain keyword wins over every later one. */
  lemma KeychainWins(name: string)
    requires Text.Contains(Text.Lower(name), "chaveiro") || Text.Contains(Text.Lower(name), "porta")
    ensures CategorySlugFor(name) == "chaveiros"
  {
  }

  // ---------------------------------------------------------------------------------------------
  // The inserts

  /** A variant of a sample product. */
  datatype SampleVariant = SampleVariant(name: string, value: string)

  /** A sample product, as far as the variant and category inserts read it; `variants` may be absent. */
  datatype SampleProduct = SampleProduct(name: string, stock: int, variants: Option<seq<SampleVariant>>)

  /** A row inserted into product_variants. */
  datatype VariantRow = VariantRow(productId: int, name: string, value: string, stock: int)

  /** A row inserted into product_categories. */
  datatype Link = Link(productId: int, categoryId: int)

  /** `Math.floor(product.stock / product.variants.length)`: each variant's share of the product's stock. */
  function Share(stock: int, n: nat): int
    requires n > 0
  {
    stock / n
  }

  /**
   * The variant rows of one product: none when the insert returned no id (`result.id` is 0) or the product
   * lists no variants; otherwise one row per variant, in order, each with an equal share of the stock.
   */
  function VariantRows(id: int, p: SampleProduct): (rows: seq<VariantRow>)
    ensures id == 0 || p.variants.None? ==> rows == []
    ensures id != 0 && p.variants.Some? ==> |rows| == |p.variants.value|
    ensures id != 0 && p.variants.Some? ==> forall i :: 0 <= i < |rows| ==>
      rows[i] == VariantRow(id, p.variants.value[i].name, p.variants.value[i].value, p.stock / |p.variants.value|)
  {
    if id != 0 && p.variants.Some? then
      var vs := p.variants.value;
      seq(|vs|, i requires 0 <= i < |vs| => VariantRow(id, vs[i].name, vs[i].value, Share(p.stock, |vs|)))
    else []
  }

  function TotalStock(rows: seq<VariantRow>): int {
    if |rows| == 0 then 0 else rows[0].stock + TotalStock(rows[1..])
  }

  lemma {:induction false} TotalOfEqualShares(rows: seq<VariantRow>, share: int)
    requires forall i :: 0 <= i < |rows| ==> rows[i].stock == share
    ensures TotalStock(rows) == |rows| * share
  {
    if |rows| > 0 {
      assert forall i :: 0 <= i < |rows[1..]| ==> rows[1..][i] == rows[i + 1];
      TotalOfEqualShares(rows[1..], share);
    }
  }

  /**
   * The shares never hand out more than the product's stock, and what is left over is less than one unit
   * per variant.
   */
  lemma VariantSharesFit(id: int, p: SampleProduct)
    requires id != 0 && p.variants.Some? && |p.variants.value| > 0
    ensures TotalStock(VariantRows(id, p)) <= p.stock
    ensures p.stock - TotalStock(VariantRows(id, p)) < |p.variants.value|
  {
    var n := |p.variants.value|;
    TotalOfEqualShares(VariantRows(id, p), p.stock / n);
    assert p.stock == n * (p.stock / n) + p.stock % n;
  }

  /**
   * The category link of one product: only when the insert returned an id and the lookup of the chosen
   * slug found a category.
   */
  function LinkFor(id: int, p: SampleProduct, categoryIds: map<string, int>): (link: Option<Link>)
    ensures link.Some? <==> id != 0 && CategorySlugFor(p.name) in categoryIds
    ensures link.Some? ==> link.value == Link(id, categoryIds[CategorySlugFor(p.name)])
  {
    var slug := CategorySlugFor(p.name);
    if id != 0 && slug in categoryIds then Some(Link(id, categoryIds[slug])) else None
  }

  /** Once every seeded category exists, each product whose insert returned an id gets its link. */
  lemma SeededCategoriesLinkEveryProduct(id: int, p: SampleProduct, categoryIds: map<string, int>)
    requires id != 0
    requires forall s :: s in SeededSlugs ==> s in categoryIds
    ensures LinkFor(id, p, categoryIds).Some?
  {
    CategorySlugSeeded(p.name);
  }

  function LinkSet(id: int, p: SampleProduct, categoryIds: map<string, int>): set<Link> {
    var l := LinkFor(id, p, categoryIds);
    if l.Some? then {l.value} else {}
  }

  /** The links of a product list; `INSERT OR IGNORE` under the table's primary key keeps one row per pair. */
  function Links(ps: seq<SampleProduct>, ids: seq<int>, categoryIds: map<string, int>): set<Link>
    requires |ids| == |ps|
  {
    if |ps| == 0 then {}
    else
      var n := |ps| - 1;
      Links(ps[..n], ids[..n], categoryIds) + LinkSet(ids[n], ps[n], categoryIds)
  }

  /** The variant rows of a product list, product by product. */
  function AllVariantRows(ps: seq<SampleProduct>, ids: seq<int>): seq<VariantRow>
    requires |ids| == |ps|
  {
    if |ps| == 0 then []
    else
      var n := |ps| - 1;
      AllVariantRows(ps[..n], ids[..n]) + VariantRows(ids[n], ps[n])
  }

  /** A link exists for a product exactly when that product's own insert returned an id and its slug was found. */
  lemma {:induction false} LinksCharacterised(ps: seq<SampleProduct>, ids: seq<int>, categoryIds: map<string, int>, l: Link)
    requires |ids| == |ps|
    ensures l in Links(ps, ids, categoryIds) <==> exists i :: 0 <= i < |ps| && LinkFor(ids[i], ps[i], categoryIds) == Some(l)
  {
    if |ps| > 0 {
      var n := |ps| - 1;
      LinksCharacterised(ps[..n], ids[..n], categoryIds, l);
      if l in Links(ps[..n], ids[..n], categoryIds) {
        var i :| 0 <= i < n && LinkFor(ids[..n][i], ps[..n][i], categoryIds) == Some(l);
        assert LinkFor(ids[i], ps[i], categoryIds) == Some(l);
      }
      if exists i :: 0 <= i < |ps| && LinkFor(ids[i], ps[i], categoryIds) == Some(l) {
        var i :| 0 <= i < |ps| && LinkFor(ids[i], ps[i], categoryIds) == Some(l);
        if i < n {
          assert LinkFor(ids[..n][i], ps[..n][i], categoryIds) == Some(l);
        }
      }
    }
  }

  /** One more product of the list adds its own variant rows. */
  lemma PrefixRows(ps: seq<SampleProduct>, ids: seq<int>, k: nat)
    requires |ids| == |ps| && k < |ps|
    ensures AllVariantRows(ps[..k + 1], ids[..k + 1]) == AllVariantRows(ps[..k], ids[..k]) + VariantRows(ids[k], ps[k])
  {
    assert ps[..k + 1][..k] == ps[..k];
    assert ids[..k + 1][..k] == ids[..k];
  }

  /** One more product of the list adds its own link. */
  lemma PrefixLinks(ps: seq<SampleProduct>, ids: seq<int>, categoryIds: map<string, int>, k: nat)
    requires |ids| == |ps| && k < |ps|
    ensures Links(ps[..k + 1], ids[..k + 1], categoryIds) == Links(ps[..k], ids[..k], categoryIds) + LinkSet(ids[k], ps[k], categoryIds)
  {
    assert ps[..k + 1][..k] == ps[..k];
    assert ids[..k + 1][..k] == ids[..k];
  }

  /** Appending rows, and adding links, regroup freely. */
  lemma Grouping(a: seq<VariantRow>, b: seq<VariantRow>, c: seq<VariantRow>, x: set<Link>, y: set<Link>, z: set<Link>)
    ensures a + b + c == a + (b + c)
    ensures x + y + z == x + (y + z)
  {
  }

  /** The two tables the product loop writes. */
  class Seeder {
    var variants: seq<VariantRow>
    var links: set<Link>

    constructor()
      ensures variants == [] && links == {}
    {
      variants := [];
      links := {};
    }

    /** The body of `for (const product of products)` once the product insert returned `id`. */
    method SeedProduct(p: SampleProduct, id: int, categoryIds: map<string, int>)
      modifies this
      ensures variants == old(variants) + VariantRows(id, p)
      ensures links == old(links) + LinkSet(id, p, categoryIds)
    {
      if id != 0 && p.variants.Some? {
        var vs := p.variants.value;
        var rows := VariantRows(id, p);
        for i := 0 to |vs|
          invariant variants == old(variants) + rows[..i]
          invariant links == old(links)
        {
          variants := variants + [VariantRow(id, vs[i].name, vs[i].value, p.stock / |vs|)];
          assert rows[..i + 1] == rows[..i] + [rows[i]];
        }
        assert rows[..|vs|] == rows;
      }
      if id != 0 {
        var slug := CategorySlugFor(p.name);
        if slug in categoryIds {
          links := links + {Link(id, categoryIds[slug])};
        }
      }
    }

    /** One turn of the product loop: the prefix of `ps` seeded so far grows by `ps[k]`. */
    method SeedNext(ps: seq<SampleProduct>, ids: seq<int>, categoryIds: map<string, int>, k: nat,
                    ghost variants0: seq<VariantRow>, ghost links0: set<Link>)
      requires |ids| == |ps| && k < |ps|
      requires variants == variants0 + AllVariantRows(ps[..k], ids[..k])
      requires links == links0 + Links(ps[..k], ids[..k], categoryIds)
      modifies this
      ensures variants == variants0 + AllVariantRows(ps[..k + 1], ids[..k + 1])
      ensures links == links0 + Links(ps[..k + 1], ids[..k + 1], categoryIds)
    {
      ghost var rows, own := AllVariantRows(ps[..k], ids[..k]), VariantRows(ids[k], ps[k]);
      ghost var linked, link := Links(ps[..k], ids[..k], categoryIds), LinkSet(ids[k], ps[k], categoryIds);
      SeedProduct(ps[k], ids[k], categoryIds);
      PrefixRows(ps, ids, k);
      PrefixLinks(ps, ids, categoryIds, k);
      Grouping(variants0, rows, own, links0, linked, link);
    }

    /** The product loop: `ids[k]` is what the insert of `ps[k]` returned. */
    method SeedProducts(ps: seq<SampleProduct>, ids: seq<int>, categoryIds: map<string, int>)
      requires |ids| == |ps|
      modifies this
      ensures variants == old(variants) + AllVariantRows(ps, ids)
      ensures links == old(links) + Links(ps, ids, categoryIds)
    {
      ghost var variants0, links0 := variants, links;
      assert ps[..0] == [] && ids[..0] == [];
      for k := 0 to |ps|
        invariant variants == variants0 + AllVariantRows(ps[..k], ids[..k])
        invariant links == links0 + Links(ps[..k], ids[..k], categoryIds)
      {
        SeedNext(ps, ids, categoryIds, k, variants0, links0);
      }
      assert ps[..|ps|] == ps;
      assert ids[..|ps|] == ids;
    }
  }
}
