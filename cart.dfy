/**
 * The session shopping cart of routes/cart.js.
 *
 * `req.session.cart` is either absent or an ordered list of lines `{productId, variantId, quantity}`.
 * The routes `/adicionar`, `/atualizar`, `/remover` and `/limpar` change it; `GET /` prices it; `/frete`
 * quotes shipping from a CEP. The functions `AddToCart`, `UpdateCart`, `RemoveFromCart` and `ClearCart`
 * say what each route does to the cart; class `SessionCart` carries out the routes step by step on the
 * session field, and its methods are proved to agree with those functions. Database rows that a route
 * reads are inputs. Prices are integer centavos.
 */
module Cart {
  import opened Wrappers
  import Text

  /** The identity of a cart line: a product and, possibly, one of its variants. */
  datatype Key = Key(productId: int, variantId: Option<int>)

  /** One entry of `req.session.cart` (its `addedAt` timestamp is not modelled). */
  datatype Line = Line(productId: int, variantId: Option<int>, quantity: int)

  function KeyOf(l: Line): Key {
    Key(l.productId, l.variantId)
  }

  /** `variantId || null` and `variantId ? parseInt(variantId) : null`: no id and the falsy id 0 both mean "no variant". */
  function NormaliseVariant(v: Option<int>): (r: Option<int>)
    ensures r.None? <==> v.None? || v == Some(0)
    ensures r.Some? ==> r == v && r.value != 0
  {
    if v.None? || v.value == 0 then None else v
  }

  /** The cart invariant: no two lines share a (productId, variantId) key. */
  predicate UniqueKeys(lines: seq<Line>) {
    forall i, j :: 0 <= i < j < |lines| ==> KeyOf(lines[i]) != KeyOf(lines[j])
  }

  /** `cart.findIndex(item => item.productId == k.productId && item.variantId == k.variantId)`. */
  function IndexOf(lines: seq<Line>, k: Key): (r: int)
    ensures -1 <= r < |lines|
    ensures r == -1 <==> forall j :: 0 <= j < |lines| ==> KeyOf(lines[j]) != k
    ensures 0 <= r ==> KeyOf(lines[r]) == k && forall j :: 0 <= j < r ==> KeyOf(lines[j]) != k
  {
    if |lines| == 0 then -1
    else if KeyOf(lines[0]) == k then 0
    else
      var r := IndexOf(lines[1..], k);
      if r == -1 then -1 else r + 1
  }

  /** `cart.reduce((sum, item) => sum + item.quantity, 0)`: the cart count reported by every route. */
  function TotalQuantity(lines: seq<Line>): int {
    if |lines| == 0 then 0 else lines[0].quantity + TotalQuantity(lines[1..])
  }

  /** `cart.splice(i, 1)`. */
  function RemoveAt(lines: seq<Line>, i: nat): seq<Line>
    requires i < |lines|
  {
    lines[..i] + lines[i + 1..]
  }

  /** `cart[i].quantity = q`. */
  function SetQuantity(lines: seq<Line>, i: nat, q: int): seq<Line>
    requires i < |lines|
  {
    lines[i := lines[i].(quantity := q)]
  }

  // ---------------------------------------------------------------------------------------------
  // Facts about the list operations

  lemma {:induction false} TotalAppend(a: seq<Line>, b: seq<Line>)
    ensures TotalQuantity(a + b) == TotalQuantity(a) + TotalQuantity(b)
  {
    if a == [] {
      assert a + b == b;
    } else {
      assert (a + b)[0] == a[0];
      assert (a + b)[1..] == a[1..] + b;
      TotalAppend(a[1..], b);
    }
  }

  lemma TotalSingle(l: Line)
    ensures TotalQuantity([l]) == l.quantity
  {
    assert [l][1..] == [];
  }

  /** Removing line `i` lowers the count by exactly that line's quantity. */
  lemma TotalRemoveAt(lines: seq<Line>, i: nat)
    requires i < |lines|
    ensures TotalQuantity(RemoveAt(lines, i)) == TotalQuantity(lines) - lines[i].quantity
  {
    var pre, post := lines[..i], lines[i..];
    assert lines == pre + post;
    TotalAppend(pre, post);
    assert post[1..] == lines[i + 1..];
    TotalAppend(pre, lines[i + 1..]);
  }

  /** Setting line `i` to `q` changes the count by `q` minus the old quantity. */
  lemma TotalSetQuantity(lines: seq<Line>, i: nat, q: int)
    requires i < |lines|
    ensures TotalQuantity(SetQuantity(lines, i, q)) == TotalQuantity(lines) - lines[i].quantity + q
  {
    var l' := lines[i].(quantity := q);
    assert lines == lines[..i] + [lines[i]] + lines[i + 1..];
    assert SetQuantity(lines, i, q) == lines[..i] + [l'] + lines[i + 1..];
    TotalAppend(lines[..i] + [lines[i]], lines[i + 1..]);
    TotalAppend(lines[..i], [lines[i]]);
    TotalAppend(lines[..i] + [l'], lines[i + 1..]);
    TotalAppend(lines[..i], [l']);
    TotalSingle(lines[i]);
    TotalSingle(l');
  }

  /** The splice keeps every other line, in its original order. */
  lemma RemoveAtKeepsOthers(lines: seq<Line>, i: nat)
    requires i < |lines|
    ensures |RemoveAt(lines, i)| == |lines| - 1
    ensures forall j :: 0 <= j < i ==> RemoveAt(lines, i)[j] == lines[j]
    ensures forall j :: i <= j < |lines| - 1 ==> RemoveAt(lines, i)[j] == lines[j + 1]
  {
  }

  lemma UniqueAfterRemoveAt(lines: seq<Line>, i: nat)
    requires i < |lines| && UniqueKeys(lines)
    ensures UniqueKeys(RemoveAt(lines, i))
  {
    var r := RemoveAt(lines, i);
    RemoveAtKeepsOthers(lines, i);
    forall a, b | 0 <= a < b < |r| ensures KeyOf(r[a]) != KeyOf(r[b]) {
      var a' := if a < i then a else a + 1;
      var b' := if b < i then b else b + 1;
      assert r[a] == lines[a'] && r[b] == lines[b'] && a' < b';
    }
  }

  lemma UniqueAfterSetQuantity(lines: seq<Line>, i: nat, q: int)
    requires i < |lines| && UniqueKeys(lines)
    ensures UniqueKeys(SetQuantity(lines, i, q))
  {
    var r := SetQuantity(lines, i, q);
    assert forall j :: 0 <= j < |r| ==> KeyOf(r[j]) == KeyOf(lines[j]);
  }

  lemma UniqueAfterAppend(lines: seq<Line>, l: Line)
    requires UniqueKeys(lines) && IndexOf(lines, KeyOf(l)) == -1
    ensures UniqueKeys(lines + [l])
  {
    var r := lines + [l];
    forall a, b | 0 <= a < b < |r| ensures KeyOf(r[a]) != KeyOf(r[b]) {
      if b == |lines| {
        assert r[a] == lines[a];
      } else {
        assert r[a] == lines[a] && r[b] == lines[b];
      }
    }
  }

  // ---------------------------------------------------------------------------------------------
  // What each route does to the cart

  /** Why a cart route refused; `Status` gives the HTTP status it answers with. */
  datatype CartError = ProductNotFound | VariantNotFound | InsufficientStock(available: int)
                     | EmptyCart | ItemNotFound | InvalidCep

  function Status(e: CartError): (code: int)
    ensures code == 400 || code == 404
  {
    match e
    case ProductNotFound => 404
    case VariantNotFound => 404
    case InsufficientStock(_) => 400
    case EmptyCart => 400
    case ItemNotFound => 404
    case InvalidCep => 400
  }

  /** A product row as the routes read it: `price` in centavos, `image` the optional file name. */
  datatype ProductRow = ProductRow(id: int, price: int, stock: int, image: Option<string>)

  /** A variant row: `priceAdjustment` is the nullable `price_adjustment` column, in centavos. */
  datatype VariantRow = VariantRow(id: int, priceAdjustment: Option<int>, stock: int)

  /** `const { quantity = 1 } = req.body`. */
  function RequestedQuantity(quantity: Option<int>): int {
    quantity.GetOr(1)
  }

  /** The stock an add is checked against: the variant's when a variant id was given, else the product's. */
  function AvailableStock(variantId: Option<int>, product: ProductRow, variant: Option<VariantRow>): int
    requires NormaliseVariant(variantId).Some? ==> variant.Some?
  {
    if NormaliseVariant(variantId).Some? then variant.value.stock else product.stock
  }

  /**
   * `POST /carrinho/adicionar` on cart `cart`. `product` is the result of the active-product lookup and
   * `variant` that of the active-variant lookup, which the route consults only when a variant id is given.
   * The result is the new cart, or the refusal.
   */
  function AddToCart(cart: Option<seq<Line>>, productId: int, variantId: Option<int>, quantity: Option<int>,
                     product: Option<ProductRow>, variant: Option<VariantRow>): (r: Result<seq<Line>, CartError>)
    ensures product.None? ==> r == Failure(ProductNotFound)
    ensures product.Some? && NormaliseVariant(variantId).Some? && variant.None? ==> r == Failure(VariantNotFound)
    ensures r.Failure? ==> r.error.ProductNotFound? || r.error.VariantNotFound? || r.error.InsufficientStock?
    ensures r.Success? ==> |r.value| - |cart.GetOr([])| in {0, 1}
  {
    var vid := NormaliseVariant(variantId);
    var q := RequestedQuantity(quantity);
    if product.None? then Failure(ProductNotFound)
    else if vid.Some? && variant.None? then Failure(VariantNotFound)
    else
      var available := AvailableStock(variantId, product.value, variant);
      if available < q then Failure(InsufficientStock(available))
      else
        var lines := cart.GetOr([]);
        var i := IndexOf(lines, Key(productId, vid));
        if i >= 0 then
          if lines[i].quantity + q > available then Failure(InsufficientStock(available))
          else Success(SetQuantity(lines, i, lines[i].quantity + q))
        else Success(lines + [Line(productId, vid, q)])
  }

  /** `POST /carrinho/atualizar`: a quantity of 0 or less removes the line; any other value is set as is, without a stock check. */
  function UpdateCart(cart: Option<seq<Line>>, productId: int, variantId: Option<int>, quantity: int): (r: Result<seq<Line>, CartError>)
    ensures r == Failure(EmptyCart) <==> cart.None?
    ensures r == Failure(ItemNotFound) <==> cart.Some? && IndexOf(cart.value, Key(productId, NormaliseVariant(variantId))) == -1
    ensures r.Success? ==> |r.value| == |cart.value| - (if quantity <= 0 then 1 else 0)
  {
    if cart.None? then Failure(EmptyCart)
    else
      var i := IndexOf(cart.value, Key(productId, NormaliseVariant(variantId)));
      if i == -1 then Failure(ItemNotFound)
      else if quantity <= 0 then Success(RemoveAt(cart.value, i))
      else Success(SetQuantity(cart.value, i, quantity))
  }

  /** `POST /carrinho/remover`. */
  function RemoveFromCart(cart: Option<seq<Line>>, productId: int, variantId: Option<int>): (r: Result<seq<Line>, CartError>)
    ensures r == Failure(EmptyCart) <==> cart.None?
    ensures r == Failure(ItemNotFound) <==> cart.Some? && IndexOf(cart.value, Key(productId, NormaliseVariant(variantId))) == -1
    ensures r.Success? ==> |r.value| == |cart.value| - 1
  {
    if cart.None? then Failure(EmptyCart)
    else
      var i := IndexOf(cart.value, Key(productId, NormaliseVariant(variantId)));
      if i == -1 then Failure(ItemNotFound)
      else Success(RemoveAt(cart.value, i))
  }

  /** `POST /carrinho/limpar`: the cart becomes present and empty, and the reported count is 0. */
  function ClearCart(): (r: seq<Line>)
    ensures r == [] && TotalQuantity(r) == 0
  {
    []
  }

  // ---------------------------------------------------------------------------------------------
  // Properties of the routes

  /** An add is refused for lack of stock exactly when the request alone exceeds the stock, or when the merged quantity would. */
  lemma AddStockRefusal(cart: Option<seq<Line>>, productId: int, variantId: Option<int>, quantity: Option<int>,
                        product: ProductRow, variant: Option<VariantRow>)
    requires NormaliseVariant(variantId).Some? ==> variant.Some?
    ensures var available := AvailableStock(variantId, product, variant);
      var q := RequestedQuantity(quantity);
      var lines := cart.GetOr([]);
      var i := IndexOf(lines, Key(productId, NormaliseVariant(variantId)));
      var refused := AddToCart(cart, productId, variantId, quantity, Some(product), variant).Failure?;
      refused <==> available < q || (i >= 0 && lines[i].quantity + q > available)
  {
  }

  /** Adding a key that is not in the cart appends exactly one line at the end; earlier lines are untouched. */
  lemma AddNewKeyAppends(cart: Option<seq<Line>>, productId: int, variantId: Option<int>, quantity: Option<int>,
                         product: Option<ProductRow>, variant: Option<VariantRow>)
    requires IndexOf(cart.GetOr([]), Key(productId, NormaliseVariant(variantId))) == -1
    requires AddToCart(cart, productId, variantId, quantity, product, variant).Success?
    ensures var r := AddToCart(cart, productId, variantId, quantity, product, variant).value;
      var lines := cart.GetOr([]);
      && |r| == |lines| + 1
      && r[..|lines|] == lines
      && r[|lines|] == Line(productId, NormaliseVariant(variantId), RequestedQuantity(quantity))
  {
  }

  /** Adding a key that is in the cart keeps its length and changes only that line, whose quantity grows by the amount added. */
  lemma AddExistingKeyMerges(cart: Option<seq<Line>>, productId: int, variantId: Option<int>, quantity: Option<int>,
                             product: Option<ProductRow>, variant: Option<VariantRow>)
    requires AddToCart(cart, productId, variantId, quantity, product, variant).Success?
    requires IndexOf(cart.GetOr([]), Key(productId, NormaliseVariant(variantId))) >= 0
    ensures var r := AddToCart(cart, productId, variantId, quantity, product, variant).value;
      var lines := cart.GetOr([]);
      var i := IndexOf(lines, Key(productId, NormaliseVariant(variantId)));
      && |r| == |lines|
      && r[i] == lines[i].(quantity := lines[i].quantity + RequestedQuantity(quantity))
      && forall j :: 0 <= j < |r| && j != i ==> r[j] == lines[j]
  {
  }

  /** An add that succeeds raises the count by exactly the quantity added. */
  lemma AddCount(cart: Option<seq<Line>>, productId: int, variantId: Option<int>, quantity: Option<int>,
                 product: Option<ProductRow>, variant: Option<VariantRow>)
    requires AddToCart(cart, productId, variantId, quantity, product, variant).Success?
    ensures TotalQuantity(AddToCart(cart, productId, variantId, quantity, product, variant).value)
         == TotalQuantity(cart.GetOr([])) + RequestedQuantity(quantity)
  {
    var lines := cart.GetOr([]);
    var vid := NormaliseVariant(variantId);
    var q := RequestedQuantity(quantity);
    var i := IndexOf(lines, Key(productId, vid));
    if i >= 0 {
      TotalSetQuantity(lines, i, lines[i].quantity + q);
    } else {
      TotalAppend(lines, [Line(productId, vid, q)]);
      TotalSingle(Line(productId, vid, q));
    }
  }

  lemma AddKeepsUniqueKeys(cart: Option<seq<Line>>, productId: int, variantId: Option<int>, quantity: Option<int>,
                           product: Option<ProductRow>, variant: Option<VariantRow>)
    requires UniqueKeys(cart.GetOr([]))
    requires AddToCart(cart, productId, variantId, quantity, product, variant).Success?
    ensures UniqueKeys(AddToCart(cart, productId, variantId, quantity, product, variant).value)
  {
    var lines := cart.GetOr([]);
    var vid := NormaliseVariant(variantId);
    var q := RequestedQuantity(quantity);
    var i := IndexOf(lines, Key(productId, vid));
    if i >= 0 {
      UniqueAfterSetQuantity(lines, i, lines[i].quantity + q);
    } else {
      UniqueAfterAppend(lines, Line(productId, vid, q));
    }
  }

  /** An update refuses a missing cart (400) and a missing line (404). */
  lemma UpdateRefusals(cart: Option<seq<Line>>, productId: int, variantId: Option<int>, quantity: int)
    ensures cart.None? ==> UpdateCart(cart, productId, variantId, quantity) == Failure(EmptyCart)
    ensures cart.Some? ==>
      ((UpdateCart(cart, productId, variantId, quantity) == Failure(ItemNotFound))
        <==> forall j :: 0 <= j < |cart.value| ==> KeyOf(cart.value[j]) != Key(productId, NormaliseVariant(variantId)))
  {
  }

  /** An update to 0 or less is exactly a removal. */
  lemma UpdateNonPositiveRemoves(cart: Option<seq<Line>>, productId: int, variantId: Option<int>, quantity: int)
    requires quantity <= 0
    ensures UpdateCart(cart, productId, variantId, quantity) == RemoveFromCart(cart, productId, variantId)
  {
  }

  /** An update to a positive quantity sets that line to exactly the requested value and changes nothing else. */
  lemma UpdatePositiveSets(cart: Option<seq<Line>>, productId: int, variantId: Option<int>, quantity: int)
    requires quantity > 0
    requires UpdateCart(cart, productId, variantId, quantity).Success?
    ensures var r := UpdateCart(cart, productId, variantId, quantity).value;
      var i := IndexOf(cart.value, Key(productId, NormaliseVariant(variantId)));
      && |r| == |cart.value|
      && r[i].quantity == quantity && KeyOf(r[i]) == KeyOf(cart.value[i])
      && forall j :: 0 <= j < |r| && j != i ==> r[j] == cart.value[j]
  {
  }

  lemma UpdateKeepsUniqueKeys(cart: Option<seq<Line>>, productId: int, variantId: Option<int>, quantity: int)
    requires cart.Some? ==> UniqueKeys(cart.value)
    requires UpdateCart(cart, productId, variantId, quantity).Success?
    ensures UniqueKeys(UpdateCart(cart, productId, variantId, quantity).value)
  {
    var i := IndexOf(cart.value, Key(productId, NormaliseVariant(variantId)));
    if quantity <= 0 {
      UniqueAfterRemoveAt(cart.value, i);
    } else {
      UniqueAfterSetQuantity(cart.value, i, quantity);
    }
  }

  /** The count an update reports is the old count with that line's quantity replaced (or dropped). */
  lemma UpdateCount(cart: Option<seq<Line>>, productId: int, variantId: Option<int>, quantity: int)
    requires UpdateCart(cart, productId, variantId, quantity).Success?
    ensures var i := IndexOf(cart.value, Key(productId, NormaliseVariant(variantId)));
      TotalQuantity(UpdateCart(cart, productId, variantId, quantity).value)
        == TotalQuantity(cart.value) - cart.value[i].quantity + (if quantity <= 0 then 0 else quantity)
  {
    var i := IndexOf(cart.value, Key(productId, NormaliseVariant(variantId)));
    if quantity <= 0 {
      TotalRemoveAt(cart.value, i);
    } else {
      TotalSetQuantity(cart.value, i, quantity);
    }
  }

  /**
   * A removal deletes the matching line and nothing else: the other lines stay in their order, and in a
   * cart with unique keys no line with that key remains.
   */
  lemma RemoveDeletesOnlyThatLine(cart: Option<seq<Line>>, productId: int, variantId: Option<int>)
    requires cart.Some? && UniqueKeys(cart.value)
    requires RemoveFromCart(cart, productId, variantId).Success?
    ensures var k := Key(productId, NormaliseVariant(variantId));
      var i := IndexOf(cart.value, k);
      var r := RemoveFromCart(cart, productId, variantId).value;
      && r == cart.value[..i] + cart.value[i + 1..]
      && (forall j :: 0 <= j < |r| ==> KeyOf(r[j]) != k)
      && (forall l :: l in cart.value && KeyOf(l) != k ==> l in r)
      && TotalQuantity(r) == TotalQuantity(cart.value) - cart.value[i].quantity
  {
    var k := Key(productId, NormaliseVariant(variantId));
    var i := IndexOf(cart.value, k);
    var r := RemoveAt(cart.value, i);
    RemoveAtKeepsOthers(cart.value, i);
    forall j | 0 <= j < |r| ensures KeyOf(r[j]) != k {
      var j' := if j < i then j else j + 1;
      assert r[j] == cart.value[j'] && j' != i;
    }
    forall l | l in cart.value && KeyOf(l) != k ensures l in r {
      var j :| 0 <= j < |cart.value| && cart.value[j] == l;
      assert j != i;
      if j < i { assert r[j] == l; } else { assert r[j - 1] == l; }
    }
    TotalRemoveAt(cart.value, i);
  }

  lemma RemoveKeepsUniqueKeys(cart: Option<seq<Line>>, productId: int, variantId: Option<int>)
    requires cart.Some? ==> UniqueKeys(cart.value)
    requires RemoveFromCart(cart, productId, variantId).Success?
    ensures UniqueKeys(RemoveFromCart(cart, productId, variantId).value)
  {
    UniqueAfterRemoveAt(cart.value, IndexOf(cart.value, Key(productId, NormaliseVariant(variantId))));
  }

  // ---------------------------------------------------------------------------------------------
  // Shipping quote (`POST /carrinho/frete`)

  datatype ShippingOption = ShippingOption(name: string, price: int, days: string)

  const Pickup := ShippingOption("Retirada", 0, "Agendamento necessário")

  /** The PAC and SEDEX options for the region named by the first CEP digit. */
  function RegionOptions(region: nat): seq<ShippingOption> {
    if region <= 2 then
      [ShippingOption("PAC", 1290, "5-8 dias úteis"), ShippingOption("SEDEX", 2290, "2-4 dias úteis")]
    else if region <= 4 then
      [ShippingOption("PAC", 1890, "7-12 dias úteis"), ShippingOption("SEDEX", 2890, "4-6 dias úteis")]
    else if region == 5 then
      [ShippingOption("PAC", 1590, "6-10 dias úteis"), ShippingOption("SEDEX", 2590, "3-5 dias úteis")]
    else
      [ShippingOption("PAC", 2290, "10-15 dias úteis"), ShippingOption("SEDEX", 3590, "5-8 dias úteis")]
  }

  /** The answer of a successful quote: the cleaned CEP and the options offered. */
  datatype Quote = Quote(cep: string, options: seq<ShippingOption>)

  /**
   * The quote for a CEP: refused unless the CEP has exactly 8 digits once non-digits are dropped; otherwise
   * the cleaned CEP with PAC, then SEDEX, priced by the first digit, then pickup at no cost.
   */
  function QuoteShipping(cep: string): (r: Result<Quote, CartError>)
    ensures r.Failure? <==> |Text.Digits(cep)| != 8
    ensures r.Failure? ==> r.error == InvalidCep && Status(r.error) == 400
    ensures r.Success? ==>
      var d := Text.DigitValue(Text.Digits(cep)[0]);
      var o := r.value.options;
      && r.value.cep == Text.Digits(cep) && Text.AllDigits(r.value.cep)
      && |o| == 3
      && o[0].name == "PAC" && o[1].name == "SEDEX" && o[2] == Pickup
      && o[0].price < o[1].price
      && (d <= 2 ==> o[0].price == 1290 && o[1].price == 2290)
      && (3 <= d <= 4 ==> o[0].price == 1890 && o[1].price == 2890)
      && (d == 5 ==> o[0].price == 1590 && o[1].price == 2590)
      && (d >= 6 ==> o[0].price == 2290 && o[1].price == 3590)
  {
    var clean := Text.Digits(cep);
    if |clean| != 8 then Failure(InvalidCep)
    else Success(Quote(clean, RegionOptions(Text.DigitValue(clean[0])) + [Pickup]))
  }

  /** The options offered depend only on the first digit: two valid CEPs that share it get the same options. */
  lemma QuoteDependsOnFirstDigit(a: string, b: string)
    requires |Text.Digits(a)| == 8 && |Text.Digits(b)| == 8
    requires Text.Digits(a)[0] == Text.Digits(b)[0]
    ensures QuoteShipping(a).value.options == QuoteShipping(b).value.options
  {
  }

  // ---------------------------------------------------------------------------------------------
  // Cart view (`GET /carrinho`)

  /** A priced line of the view: the stored line, its unit price, its total and its image file name. */
  datatype PricedLine = PricedLine(line: Line, unitPrice: int, total: int, image: string)

  /** The options the view shows, and the default selection: PAC at 15.90. */
  const ViewOptions: seq<ShippingOption> :=
    [ShippingOption("PAC", 1590, "8-12 dias úteis"), ShippingOption("SEDEX", 2590, "3-5 dias úteis"), Pickup]

  /** The variant the view prices a line with: looked up by id only when the line has one, and possibly missing. */
  function VariantFor(l: Line, variants: map<int, VariantRow>): Option<VariantRow> {
    if l.variantId.Some? && l.variantId.value != 0 && l.variantId.value in variants then Some(variants[l.variantId.value])
    else None
  }

  /** `variant ? product.price + (variant.price_adjustment || 0) : product.price`. */
  function UnitPrice(p: ProductRow, v: Option<VariantRow>): int {
    if v.Some? then p.price + v.value.priceAdjustment.GetOr(0) else p.price
  }

  function PriceLine(l: Line, p: ProductRow, v: Option<VariantRow>): PricedLine {
    var price := UnitPrice(p, v);
    var image := if p.image.Some? && p.image.value != "" then p.image.value else "/images/products/placeholder.jpg";
    PricedLine(l, price, price * l.quantity, image)
  }

  /** The enriched cart: lines whose product still exists, priced in cart order. */
  function Priced(lines: seq<Line>, products: map<int, ProductRow>, variants: map<int, VariantRow>): seq<PricedLine> {
    if |lines| == 0 then []
    else
      var init := Priced(lines[..|lines| - 1], products, variants);
      var l := lines[|lines| - 1];
      if l.productId in products then init + [PriceLine(l, products[l.productId], VariantFor(l, variants))] else init
  }

  /** The sum of the line totals. */
  function SumTotals(items: seq<PricedLine>): int {
    if |items| == 0 then 0 else SumTotals(items[..|items| - 1]) + items[|items| - 1].total
  }

  lemma {:induction false} PricedAppend(a: seq<Line>, b: seq<Line>, products: map<int, ProductRow>, variants: map<int, VariantRow>)
    ensures Priced(a + b, products, variants) == Priced(a, products, variants) + Priced(b, products, variants)
  {
    if b == [] {
      assert a + b == a;
    } else {
      assert (a + b)[..|a + b| - 1] == a + b[..|b| - 1];
      assert (a + b)[|a + b| - 1] == b[|b| - 1];
      PricedAppend(a, b[..|b| - 1], products, variants);
    }
  }

  lemma {:induction false} SumTotalsAppend(a: seq<PricedLine>, b: seq<PricedLine>)
    ensures SumTotals(a + b) == SumTotals(a) + SumTotals(b)
  {
    if b == [] {
      assert a + b == a;
    } else {
      assert (a + b)[..|a + b| - 1] == a + b[..|b| - 1];
      assert (a + b)[|a + b| - 1] == b[|b| - 1];
      SumTotalsAppend(a, b[..|b| - 1]);
    }
  }

  lemma PricedSingle(l: Line, products: map<int, ProductRow>, variants: map<int, VariantRow>)
    ensures Priced([l], products, variants)
         == if l.productId in products then [PriceLine(l, products[l.productId], VariantFor(l, variants))] else []
  {
    assert [l][..0] == [];
  }

  /**
   * Every priced line comes from a cart line whose product exists, is priced at product price plus
   * variant adjustment, and totals unit price times quantity.
   */
  lemma {:induction false} PricedLinesAreFaithful(lines: seq<Line>, products: map<int, ProductRow>, variants: map<int, VariantRow>)
    ensures forall k :: 0 <= k < |Priced(lines, products, variants)| ==>
      var item := Priced(lines, products, variants)[k];
      && item.line in lines
      && item.line.productId in products
      && item.unitPrice == UnitPrice(products[item.line.productId], VariantFor(item.line, variants))
      && item.total == item.unitPrice * item.line.quantity
  {
    if |lines| > 0 {
      var init := lines[..|lines| - 1];
      PricedLinesAreFaithful(init, products, variants);
      forall l | l in init ensures l in lines { }
    }
  }

  lemma {:induction false} PricedNoLonger(lines: seq<Line>, products: map<int, ProductRow>, variants: map<int, VariantRow>)
    ensures |Priced(lines, products, variants)| <= |lines|
  {
    if |lines| > 0 {
      PricedNoLonger(lines[..|lines| - 1], products, variants);
    }
  }

  /** Lines whose product is gone are skipped: the view keeps every line exactly when every product still exists. */
  lemma {:induction false} PricedKeepsAllIffAllExist(lines: seq<Line>, products: map<int, ProductRow>, variants: map<int, VariantRow>)
    ensures |Priced(lines, products, variants)| == |lines| <==> forall l :: l in lines ==> l.productId in products
  {
    if |lines| > 0 {
      var init := lines[..|lines| - 1];
      var last := lines[|lines| - 1];
      PricedKeepsAllIffAllExist(init, products, variants);
      PricedNoLonger(init, products, variants);
      if forall l :: l in lines ==> l.productId in products {
        assert last in lines;
        forall l | l in init ensures l.productId in products {
          var j :| 0 <= j < |init| && init[j] == l;
          assert lines[j] == l;
        }
      } else {
        var l :| l in lines && l.productId !in products;
        var j :| 0 <= j < |lines| && lines[j] == l;
        if j < |lines| - 1 {
          assert init[j] == l;
        }
      }
    }
  }

  /** Removing line `i` lowers the subtotal by that line's total, or leaves it when its product is gone. */
  lemma SubtotalAfterRemove(lines: seq<Line>, i: nat, products: map<int, ProductRow>, variants: map<int, VariantRow>)
    requires i < |lines|
    ensures var l := lines[i];
      SumTotals(Priced(RemoveAt(lines, i), products, variants))
        == SumTotals(Priced(lines, products, variants))
           - (if l.productId in products then PriceLine(l, products[l.productId], VariantFor(l, variants)).total else 0)
  {
    var pre, mid, post := lines[..i], [lines[i]], lines[i + 1..];
    assert lines == pre + mid + post;
    PricedAppend(pre + mid, post, products, variants);
    PricedAppend(pre, mid, products, variants);
    PricedAppend(pre, post, products, variants);
    PricedSingle(lines[i], products, variants);
    var pp, pm, pq := Priced(pre, products, variants), Priced(mid, products, variants), Priced(post, products, variants);
    SumTotalsAppend(pp + pm, pq);
    SumTotalsAppend(pp, pm);
    SumTotalsAppend(pp, pq);
    if lines[i].productId in products {
      assert SumTotals(pm) == pm[0].total by { assert pm[..0] == []; }
    }
  }

  /** One more line of the cart extends the enriched list by that line's pricing, or not at all. */
  lemma PricedStep(lines: seq<Line>, i: nat, products: map<int, ProductRow>, variants: map<int, VariantRow>)
    requires i < |lines|
    ensures var l := lines[i];
      Priced(lines[..i + 1], products, variants)
        == Priced(lines[..i], products, variants)
           + (if l.productId in products then [PriceLine(l, products[l.productId], VariantFor(l, variants))] else [])
  {
    assert lines[..i + 1][..i] == lines[..i];
  }

  lemma SumTotalsStep(items: seq<PricedLine>, item: PricedLine)
    ensures SumTotals(items + [item]) == SumTotals(items) + item.total
  {
    assert (items + [item])[..|items|] == items;
  }

  /**
   * The body of the view's loop for a line whose product exists, statement by statement: look up the variant,
   * price the line, pick the image. It computes what `PriceLine` states; the promises are proved about `Priced`.
   */
  method Enrich(item: Line, product: ProductRow, variants: map<int, VariantRow>) returns (priced: PricedLine)
    ensures priced == PriceLine(item, product, VariantFor(item, variants))
  {
    var variant: Option<VariantRow> := None;
    if item.variantId.Some? && item.variantId.value != 0 {
      if item.variantId.value in variants {
        variant := Some(variants[item.variantId.value]);
      }
    }
    var image := if product.image.Some? && product.image.value != "" then product.image.value
                 else "/images/products/placeholder.jpg";
    var itemPrice := if variant.Some? then product.price + variant.value.priceAdjustment.GetOr(0) else product.price;
    priced := PricedLine(item, itemPrice, itemPrice * item.quantity, image);
  }

  /** What `GET /carrinho` renders. */
  datatype CartView = CartView(items: seq<PricedLine>, subtotal: int, options: seq<ShippingOption>,
                               selected: ShippingOption, total: int, isEmpty: bool)

  /**
   * The cart part of the session: `cart` mirrors `req.session.cart`, absent until the first successful add,
   * and `selected` mirrors `req.session.selectedShipping`.
   */
  class SessionCart {
    var cart: Option<seq<Line>>
    var selected: Option<ShippingOption>

    ghost predicate Valid()
      reads this
    {
      cart.Some? ==> UniqueKeys(cart.value)
    }

    constructor ()
      ensures Valid() && cart.None? && selected.None?
    {
      cart := None;
      selected := None;
    }

    /** `POST /carrinho/adicionar`; on success the reported count is the new cart's total quantity. */
    method Add(productId: int, variantId: Option<int>, quantity: Option<int>,
               product: Option<ProductRow>, variant: Option<VariantRow>) returns (r: Result<int, CartError>)
      requires Valid()
      modifies this
      ensures Valid()
      ensures selected == old(selected)
      ensures match AddToCart(old(cart), productId, variantId, quantity, product, variant)
        case Failure(e) => cart == old(cart) && r == Failure(e)
        case Success(c) => cart == Some(c) && r == Success(TotalQuantity(c))
    {
      ghost var spec := AddToCart(cart, productId, variantId, quantity, product, variant);
      if product.None? {
        return Failure(ProductNotFound);
      }
      var vid := NormaliseVariant(variantId);
      if vid.Some? && variant.None? {
        return Failure(VariantNotFound);
      }
      var q := RequestedQuantity(quantity);
      var available := if vid.Some? then variant.value.stock else product.value.stock;
      assert available == AvailableStock(variantId, product.value, variant);
      if available < q {
        return Failure(InsufficientStock(available));
      }
      if cart.None? {
        cart := Some([]);
      }
      var lines := cart.value;
      assert lines == old(cart).GetOr([]);
      var i := IndexOf(lines, Key(productId, vid));
      if i > -1 {
        var newQuantity := lines[i].quantity + q;
        if newQuantity > available {
          assert spec == Failure(InsufficientStock(available));
          return Failure(InsufficientStock(available));
        }
        lines := lines[i := lines[i].(quantity := newQuantity)];
      } else {
        lines := lines + [Line(productId, vid, q)];
      }
      assert spec == Success(lines);
      AddKeepsUniqueKeys(old(cart), productId, variantId, quantity, product, variant);
      cart := Some(lines);
      r := Success(TotalQuantity(lines));
    }

    /** `POST /carrinho/atualizar`. */
    method Update(productId: int, variantId: Option<int>, quantity: int) returns (r: Result<int, CartError>)
      requires Valid()
      modifies this
      ensures Valid()
      ensures selected == old(selected)
      ensures match UpdateCart(old(cart), productId, variantId, quantity)
        case Failure(e) => cart == old(cart) && r == Failure(e)
        case Success(c) => cart == Some(c) && r == Success(TotalQuantity(c))
    {
      if cart.None? {
        return Failure(EmptyCart);
      }
      var lines := cart.value;
      var i := IndexOf(lines, Key(productId, NormaliseVariant(variantId)));
      if i == -1 {
        return Failure(ItemNotFound);
      }
      if quantity <= 0 {
        lines := lines[..i] + lines[i + 1..];
      } else {
        lines := lines[i := lines[i].(quantity := quantity)];
      }
      UpdateKeepsUniqueKeys(cart, productId, variantId, quantity);
      cart := Some(lines);
      r := Success(TotalQuantity(lines));
    }

    /** `POST /carrinho/remover`. */
    method Remove(productId: int, variantId: Option<int>) returns (r: Result<int, CartError>)
      requires Valid()
      modifies this
      ensures Valid()
      ensures selected == old(selected)
      ensures match RemoveFromCart(old(cart), productId, variantId)
        case Failure(e) => cart == old(cart) && r == Failure(e)
        case Success(c) => cart == Some(c) && r == Success(TotalQuantity(c))
    {
      if cart.None? {
        return Failure(EmptyCart);
      }
      var lines := cart.value;
      var i := IndexOf(lines, Key(productId, NormaliseVariant(variantId)));
      if i == -1 {
        return Failure(ItemNotFound);
      }
      lines := lines[..i] + lines[i + 1..];
      RemoveKeepsUniqueKeys(cart, productId, variantId);
      cart := Some(lines);
      r := Success(TotalQuantity(lines));
    }

    /** `POST /carrinho/limpar`: reports a count of 0. */
    method Clear() returns (count: int)
      requires Valid()
      modifies this
      ensures Valid()
      ensures cart == Some(ClearCart()) && count == 0 && selected == old(selected)
    {
      cart := Some([]);
      count := 0;
    }

    /** `POST /carrinho/frete/selecionar`: remembers the chosen option (its price already parsed to centavos). */
    method SelectShipping(name: string, price: int, days: string)
      requires Valid()
      modifies this
      ensures Valid()
      ensures selected == Some(ShippingOption(name, price, days)) && cart == old(cart)
    {
      selected := Some(ShippingOption(name, price, days));
    }

    /**
     * `GET /carrinho`: walks `req.session.cart || []`, skipping lines whose product is gone, and accumulates
     * the subtotal; the total adds the selected shipping price, PAC at 15.90 when none was selected.
     * `products` and `variants` are the tables as the route reads them (by id, active or not).
     */
    method View(products: map<int, ProductRow>, variants: map<int, VariantRow>)
      returns (v: CartView)
      ensures v.items == Priced(cart.GetOr([]), products, variants)
      ensures v.subtotal == SumTotals(v.items)
      ensures v.selected == selected.GetOr(ViewOptions[0])
      ensures v.total == v.subtotal + v.selected.price
      ensures v.options == ViewOptions
      ensures v.isEmpty <==> |v.items| == 0
    {
      var lines := cart.GetOr([]);
      var enriched: seq<PricedLine> := [];
      var subtotal := 0;
      var i := 0;
      while i < |lines|
        invariant 0 <= i <= |lines|
        invariant enriched == Priced(lines[..i], products, variants)
        invariant subtotal == SumTotals(enriched)
      {
        var item := lines[i];
        PricedStep(lines, i, products, variants);
        if item.productId in products {
          var priced := Enrich(item, products[item.productId], variants);
          SumTotalsStep(enriched, priced);
          subtotal := subtotal + priced.total;
          enriched := enriched + [priced];
        }
        i := i + 1;
      }
      assert lines[..|lines|] == lines;
      var shipping := selected.GetOr(ViewOptions[0]);
      v := CartView(enriched, subtotal, ViewOptions, shipping, subtotal + shipping.price, |enriched| == 0);
    }
  }

  /**
   * Clearing the cart, then viewing it: the view is empty with subtotal 0, and the total is the price of the
   * shipping option chosen before the clear, which the clear keeps; without one it is the default PAC.
   */
  method ViewAfterClear(c: SessionCart, products: map<int, ProductRow>, variants: map<int, VariantRow>)
    returns (v: CartView)
    requires c.Valid()
    modifies c
    ensures v.isEmpty && v.items == [] && v.subtotal == 0
    ensures v.selected == old(c.selected).GetOr(ViewOptions[0]) && v.total == v.selected.price
    ensures old(c.selected).None? ==> v.total == 1590
  {
    var _ := c.Clear();
    v := c.View(products, variants);
  }
}
