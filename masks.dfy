/**
 * The input helpers of public/js/app.js that the server's rules meet again: the CEP mask and its
 * validity test, the phone mask, the cookie reader and the quantity field's choice between updating
 * and removing a cart line. The DOM events are left out: each helper is a function of the field's text.
 */
module Masks {
  import opened Wrappers
  import Text
  import Auth
  import Cart

  function Min(a: int, b: int): int {
    if a <= b then a else b
  }

  /** An all-digit string is its own digit strip (`Digits` of `Digits`). */
  lemma DigitsOfDigits(s: string)
    requires Text.AllDigits(s)
    ensures Text.Digits(s) == s
  {
  }

  /** The digits of `a + [c] + b` for a non-digit `c`: the separators of the masks vanish under stripping. */
  lemma DigitsAround(a: string, c: char, b: string)
    requires !Text.IsDigit(c)
    ensures Text.Digits(a + [c] + b) == Text.Digits(a) + Text.Digits(b)
  {
    Text.DigitsAppend(a + [c], b);
    Text.DigitsAppend(a, [c]);
    Text.DigitsOfNonDigit(c);
  }

  // ---------------------------------------------------------------------------------------------
  // CEP

  /**
   * `formatCEP`: the typed digits, and once there are five of them a `-` after the fifth; `substring(5, 8)`
   * keeps at most three more, so at most eight digits survive.
   */
  function FormatCep(typed: string): (r: string)
    ensures var d := Text.Digits(typed);
      && Text.Digits(r) == d[..Min(|d|, 8)]
      && (|d| < 5 ==> r == d)
      && (|d| >= 5 ==> |r| == Min(|d|, 8) + 1 && r[5] == '-' && r[..5] == d[..5])
  {
    var d := Text.Digits(typed);
    if |d| >= 5 then
      var r := d[..5] + "-" + d[5..Min(|d|, 8)];
      DigitsAround(d[..5], '-', d[5..Min(|d|, 8)]);
      DigitsOfDigits(d[..5]);
      DigitsOfDigits(d[5..Min(|d|, 8)]);
      assert d[..5] + d[5..Min(|d|, 8)] == d[..Min(|d|, 8)];
      r
    else
      d
  }

  /** Formatting a formatted CEP changes nothing: the mask can run on every keystroke. */
  lemma FormatCepIdempotent(typed: string)
    ensures FormatCep(FormatCep(typed)) == FormatCep(typed)
  {
    var d := Text.Digits(typed);
    var r := FormatCep(typed);
    var d2 := Text.Digits(r);
    assert d2 == d[..Min(|d|, 8)];
    if |d| >= 5 {
      assert d2[..5] == d[..5];
      assert d2[5..Min(|d2|, 8)] == d[5..Min(|d|, 8)];
      assert r == d[..5] + "-" + d[5..Min(|d|, 8)];
    } else {
      assert d2 == d;
    }
  }

  /** `validateCEP`: the field is valid exactly when it holds eight digits once non-digits are stripped. */
  predicate ValidateCep(typed: string) {
    |Text.Digits(typed)| == 8
  }

  /** The client accepts a CEP exactly when the server quotes shipping for it. */
  lemma ValidateCepAgreesWithServer(typed: string)
    ensures ValidateCep(typed) <==> Cart.QuoteShipping(typed).Success?
  {
  }

  /**
   * The mask's output passes the client check exactly when at least eight digits were typed, and the
   * server then quotes for the first eight of them.
   */
  lemma FormattedCepValid(typed: string)
    ensures ValidateCep(FormatCep(typed)) <==> |Text.Digits(typed)| >= 8
    ensures |Text.Digits(typed)| >= 8 ==>
      Cart.QuoteShipping(FormatCep(typed)).Success? &&
      Cart.QuoteShipping(FormatCep(typed)).value.cep == Text.Digits(typed)[..8]
  {
  }

  // ---------------------------------------------------------------------------------------------
  // Phone

  /** The mask `(AA) PPPPP-LLLL` laid around its three digit groups. */
  function PhoneMask(area: string, prefix: string, line: string): string {
    "(" + area + ") " + prefix + "-" + line
  }

  /** A leading non-digit vanishes under stripping. */
  lemma DigitsSkip(c: char, t: string)
    requires !Text.IsDigit(c)
    ensures Text.Digits([c] + t) == Text.Digits(t)
  {
    assert ([c] + t)[1..] == t;
  }

  /** The digits of a mask are the digits that were put into it. */
  lemma PhoneMaskDigits(area: string, prefix: string, line: string)
    requires Text.AllDigits(area) && Text.AllDigits(prefix) && Text.AllDigits(line)
    ensures Text.Digits(PhoneMask(area, prefix, line)) == area + prefix + line
  {
    var t4 := ['-'] + line;
    var t3 := prefix + t4;
    var t2 := [' '] + t3;
    var t1 := [')'] + t2;
    var t0 := area + t1;
    assert PhoneMask(area, prefix, line) == ['('] + t0;
    assert Text.Digits(t4) == line by {
      DigitsSkip('-', line);
      DigitsOfDigits(line);
    }
    assert Text.Digits(t3) == prefix + line by {
      Text.DigitsAppend(prefix, t4);
      DigitsOfDigits(prefix);
    }
    assert Text.Digits(t1) == prefix + line by {
      DigitsSkip(')', t2);
      DigitsSkip(' ', t3);
    }
    assert Text.Digits(t0) == area + prefix + line by {
      Text.DigitsAppend(area, t1);
      DigitsOfDigits(area);
    }
    DigitsSkip('(', t0);
  }

  /** A mask with a two-digit area, four or five digits before the dash and four after passes the registration validator. */
  lemma PhoneMaskAccepted(area: string, prefix: string, line: string)
    requires |area| == 2 && Text.AllDigits(area)
    requires (|prefix| == 4 || |prefix| == 5) && Text.AllDigits(prefix)
    requires |line| == 4 && Text.AllDigits(line)
    ensures Auth.PhoneMatches(PhoneMask(area, prefix, line))
  {
    Auth.PhoneShapeMatches(area, ' ', prefix, line);
    assert PhoneMask(area, prefix, line) == "(" + area + ")" + [' '] + prefix + "-" + line;
  }

  /**
   * `formatPhone` as written: from ten digits on, `(` + two digits + `) ` + the next five + `-` + the rest,
   * cut at the eleventh digit; fewer digits are left bare.
   */
  function FormatPhone(typed: string): (r: string)
    ensures var d := Text.Digits(typed);
      && Text.Digits(r) == d[..Min(|d|, 11)]
      && (|d| < 10 ==> r == d)
      && (|d| >= 10 ==> |r| == Min(|d|, 11) + 4)
  {
    var d := Text.Digits(typed);
    if |d| >= 10 then
      PhoneMaskDigits(d[..2], d[2..7], d[7..Min(|d|, 11)]);
      assert d[..2] + d[2..7] + d[7..Min(|d|, 11)] == d[..Min(|d|, 11)];
      PhoneMask(d[..2], d[2..7], d[7..Min(|d|, 11)])
    else
      d
  }

  /** Eleven or more typed digits give a phone the registration validator accepts. */
  lemma FormatPhoneElevenDigitsAccepted(typed: string)
    requires |Text.Digits(typed)| >= 11
    ensures Auth.PhoneMatches(FormatPhone(typed))
  {
    var d := Text.Digits(typed);
    PhoneMaskAccepted(d[..2], d[2..7], d[7..11]);
  }

  /**
   * Ten typed digits (a landline) give `(DD) DDDDD-DDD`: five digits before the dash and three after, a
   * string the registration validator rejects.
   */
  lemma FormatPhoneTenDigitsRejected(typed: string)
    requires |Text.Digits(typed)| == 10
    ensures var d := Text.Digits(typed); FormatPhone(typed) == PhoneMask(d[..2], d[2..7], d[7..10])
    ensures !Auth.PhoneMatches(FormatPhone(typed))
  {
    var d := Text.Digits(typed);
    var r := FormatPhone(typed);
    assert r == PhoneMask(d[..2], d[2..7], d[7..10]);
    assert |r| == 14;
    assert r[9] == d[2..7][4];
  }

  /** A concrete landline: `1133334444` is masked as `(11) 33334-444`. */
  lemma FormatPhoneLandlineExample(s: string)
    requires s == "1133334444"
    ensures FormatPhone(s) == "(11) 33334-444"
    ensures !Auth.PhoneMatches(FormatPhone(s))
  {
    LandlineDigits(s);
    FormatPhoneTenDigitsRejected(s);
    LandlineMask(s);
  }

  lemma LandlineDigits(s: string)
    requires s == "1133334444"
    ensures Text.Digits(s) == s
  {
    DigitsOfDigits(s);
  }

  lemma LandlineMask(s: string)
    requires s == "1133334444"
    ensures PhoneMask(s[..2], s[2..7], s[7..10]) == "(11) 33334-444"
  {
    assert s[..2] == "11" && s[2..7] == "33334" && s[7..10] == "444";
  }

  /**
   * The mask the validator's `(DD) DDDDD-DDDD` / `(DD) DDDD-DDDD` pattern calls for: a ten-digit number
   * takes four digits before the dash; eleven or more digits are masked as before.
   */
  function FormatPhoneIntended(typed: string): (r: string)
    ensures var d := Text.Digits(typed);
      && Text.Digits(r) == d[..Min(|d|, 11)]
      && (|d| < 10 ==> r == d)
      && (|d| >= 11 ==> r == FormatPhone(typed))
  {
    var d := Text.Digits(typed);
    if |d| == 10 then
      PhoneMaskDigits(d[..2], d[2..6], d[6..10]);
      assert d[..2] + d[2..6] + d[6..10] == d;
      PhoneMask(d[..2], d[2..6], d[6..10])
    else
      FormatPhone(typed)
  }

  /** With the intended mask, every number of ten or more digits passes the registration validator. */
  lemma FormatPhoneIntendedAccepted(typed: string)
    requires |Text.Digits(typed)| >= 10
    ensures Auth.PhoneMatches(FormatPhoneIntended(typed))
  {
    var d := Text.Digits(typed);
    if |d| == 10 {
      PhoneMaskAccepted(d[..2], d[2..6], d[6..10]);
    } else {
      FormatPhoneElevenDigitsAccepted(typed);
    }
  }

  // ---------------------------------------------------------------------------------------------
  // Cookies

  /** `v.split('=')[0]`: the name of a `name=value` piece. */
  function NameOf(piece: string): string {
    Text.Split(piece, "=")[0]
  }

  /** `v.split('=')[1]`: the text after the first `=` up to the next one; a piece without `=` has none, and `undefined` reaches the decoder as its string. */
  function ValueOf(piece: string): string {
    var parts := Text.Split(piece, "=");
    if |parts| >= 2 then parts[1] else "undefined"
  }

  /** The `reduce` of `getCookie` from the accumulator `r`: a matching piece replaces the accumulator with its decoded value. */
  function Reduce(pieces: seq<string>, name: string, decode: string -> string, r: string): string
    decreases |pieces|
  {
    if |pieces| == 0 then r
    else Reduce(pieces[1..], name, decode, if NameOf(pieces[0]) == name then decode(ValueOf(pieces[0])) else r)
  }

  /** `getCookie(name)` over `document.cookie`; `decode` is `decodeURIComponent`. */
  function GetCookie(cookie: string, name: string, decode: string -> string): string {
    Reduce(Text.Split(cookie, "; "), name, decode, "")
  }

  /** No piece is named `name` from index `k` on. */
  predicate NoMatchFrom(pieces: seq<string>, name: string, k: nat) {
    forall j :: k <= j < |pieces| ==> NameOf(pieces[j]) != name
  }

  /** The fold keeps its accumulator when no piece matches. */
  lemma {:induction false} ReduceNoMatch(pieces: seq<string>, name: string, decode: string -> string, r: string)
    requires NoMatchFrom(pieces, name, 0)
    ensures Reduce(pieces, name, decode, r) == r
    decreases |pieces|
  {
    if |pieces| > 0 {
      assert NameOf(pieces[0]) != name;
      assert NoMatchFrom(pieces[1..], name, 0) by {
        forall j | 0 <= j < |pieces[1..]| ensures NameOf(pieces[1..][j]) != name { assert pieces[1..][j] == pieces[j + 1]; }
      }
      ReduceNoMatch(pieces[1..], name, decode, r);
    }
  }

  /** The fold ends on the decoded value of the last matching piece. */
  lemma {:induction false} ReduceLastMatch(pieces: seq<string>, name: string, decode: string -> string, r: string, i: int)
    requires 0 <= i < |pieces| && NameOf(pieces[i]) == name && NoMatchFrom(pieces, name, i + 1)
    ensures Reduce(pieces, name, decode, r) == decode(ValueOf(pieces[i]))
    decreases |pieces|
  {
    var rest := pieces[1..];
    var r' := if NameOf(pieces[0]) == name then decode(ValueOf(pieces[0])) else r;
    assert Reduce(pieces, name, decode, r) == Reduce(rest, name, decode, r');
    if i == 0 {
      assert NoMatchFrom(rest, name, 0) by {
        forall j | 0 <= j < |rest| ensures NameOf(rest[j]) != name { assert rest[j] == pieces[j + 1]; }
      }
      ReduceNoMatch(rest, name, decode, r');
    } else {
      assert rest[i - 1] == pieces[i];
      assert NoMatchFrom(rest, name, i) by {
        forall j | i <= j < |rest| ensures NameOf(rest[j]) != name { assert rest[j] == pieces[j + 1]; }
      }
      ReduceLastMatch(rest, name, decode, r', i - 1);
    }
  }

  /** `getCookie` gives `''` when no cookie has the name, and the decoded value of the last one that does otherwise. */
  lemma GetCookieLastMatch(cookie: string, name: string, decode: string -> string)
    ensures NoMatchFrom(Text.Split(cookie, "; "), name, 0) ==> GetCookie(cookie, name, decode) == ""
    ensures var pieces := Text.Split(cookie, "; ");
      forall i :: 0 <= i < |pieces| && NameOf(pieces[i]) == name && NoMatchFrom(pieces, name, i + 1) ==>
        GetCookie(cookie, name, decode) == decode(ValueOf(pieces[i]))
  {
    var pieces := Text.Split(cookie, "; ");
    if NoMatchFrom(pieces, name, 0) {
      ReduceNoMatch(pieces, name, decode, "");
    }
    forall i | 0 <= i < |pieces| && NameOf(pieces[i]) == name && NoMatchFrom(pieces, name, i + 1)
      ensures GetCookie(cookie, name, decode) == decode(ValueOf(pieces[i]))
    {
      ReduceLastMatch(pieces, name, decode, "", i);
    }
  }


  // ---------------------------------------------------------------------------------------------
  // The quantity field of the cart page

  /** The request `handleUpdateQuantity` ends up sending for a parsed quantity, if any. */
  datatype QuantityRequest = NoRequest | RemoveLine | UpdateLine(quantity: int)

  /**
   * The handler as written: for a quantity of zero or less it calls `handleRemoveFromCart({ target: input })`,
   * whose first statement `event.preventDefault()` throws on that plain object, so no request leaves the page.
   */
  function QuantityRequestAsWritten(quantity: int): (q: QuantityRequest)
    ensures q.NoRequest? <==> quantity <= 0
    ensures !q.RemoveLine?
    ensures q.UpdateLine? ==> q.quantity == quantity && q.quantity > 0
  {
    if quantity <= 0 then NoRequest else UpdateLine(quantity)
  }

  /**
   * The handler as intended: a quantity of zero or less goes through the removal handler, which asks for
   * confirmation and then removes the line; any other quantity is sent as an update.
   */
  function QuantityRequestFor(quantity: int, confirmed: bool): (q: QuantityRequest)
    ensures q.RemoveLine? <==> quantity <= 0 && confirmed
    ensures q.NoRequest? <==> quantity <= 0 && !confirmed
    ensures q.UpdateLine? ==> q.quantity == quantity && q.quantity > 0
  {
    if quantity > 0 then UpdateLine(quantity) else if confirmed then RemoveLine else NoRequest
  }

  /** The session cart after a route's answer: a refusal leaves it as it was. */
  function CartAfter(cart: Option<seq<Cart.Line>>, r: Result<seq<Cart.Line>, Cart.CartError>): Option<seq<Cart.Line>> {
    if r.Success? then Some(r.value) else cart
  }

  /** The session cart once the request the field sends, if any, has been answered. */
  function Send(cart: Option<seq<Cart.Line>>, productId: int, variantId: Option<int>, q: QuantityRequest): Option<seq<Cart.Line>> {
    match q
    case NoRequest => cart
    case RemoveLine => CartAfter(cart, Cart.RemoveFromCart(cart, productId, variantId))
    case UpdateLine(n) => CartAfter(cart, Cart.UpdateCart(cart, productId, variantId, n))
  }

  /** For a positive quantity the handler as written and as intended send the same update. */
  lemma QuantityPositiveAgrees(quantity: int, confirmed: bool)
    requires quantity > 0
    ensures QuantityRequestAsWritten(quantity) == QuantityRequestFor(quantity, confirmed) == UpdateLine(quantity)
  {
  }

  /**
   * As written, a quantity of zero or less on a line that is in the cart changes nothing, although the update
   * route would have removed that line for the same quantity.
   */
  lemma QuantityAsWrittenMissesRemoval(cart: Option<seq<Cart.Line>>, productId: int, variantId: Option<int>, quantity: int)
    requires quantity <= 0 && cart.Some?
    requires Cart.IndexOf(cart.value, Cart.Key(productId, Cart.NormaliseVariant(variantId))) >= 0
    ensures Send(cart, productId, variantId, QuantityRequestAsWritten(quantity)) == cart
    ensures Cart.UpdateCart(cart, productId, variantId, quantity).Success?
    ensures |CartAfter(cart, Cart.UpdateCart(cart, productId, variantId, quantity)).value| == |cart.value| - 1
    ensures CartAfter(cart, Cart.UpdateCart(cart, productId, variantId, quantity)) != cart
  {
    Cart.RemoveAtKeepsOthers(cart.value, Cart.IndexOf(cart.value, Cart.Key(productId, Cart.NormaliseVariant(variantId))));
  }

  /** As intended, a confirmed removal leaves the cart exactly as the update route would have for the same quantity. */
  lemma QuantityShortcutAgrees(cart: Option<seq<Cart.Line>>, productId: int, variantId: Option<int>, quantity: int)
    ensures Send(cart, productId, variantId, QuantityRequestFor(quantity, true))
         == CartAfter(cart, Cart.UpdateCart(cart, productId, variantId, quantity))
  {
  }
}
