/** The product endpoints of the Next.js storefront (app/api/products/route.ts): POST
    checks the required fields and inserts a product row; PUT checks the id and patches
    the matching rows with the fields the request carries. The request body is a JSON
    object whose fields may be missing; the database is a sequence of rows, and a
    database error is a parameter. */
module ApiProducts {
  import opened Wrappers
  import opened Text
  import opened Seqs

  /** A field of the request body: missing (`undefined`) or a JSON value. Arrays and
      objects are `Composite`. */
  datatype Json = Undefined | Null | Bool(b: bool) | Num(n: real) | Str(s: string) | Composite

  /** JavaScript truthiness of a body field. */
  predicate Truthy(v: Json) {
    match v
    case Undefined => false
    case Null => false
    case Bool(b) => b
    case Num(n) => n != 0.0
    case Str(s) => s != ""
    case Composite => true
  }

  /** A JavaScript number as `parseFloat` returns it. */
  datatype Number = Finite(value: real) | NotANumber

  predicate IsDigit(c: char) { '0' <= c <= '9' }

  /** The number of decimal digits at the start of `s`. */
  function DigitRun(s: string): (n: nat)
    ensures n <= |s|
    ensures forall i :: 0 <= i < n ==> IsDigit(s[i])
    ensures n < |s| ==> !IsDigit(s[n])
  {
    if |s| > 0 && IsDigit(s[0]) then 1 + DigitRun(s[1..]) else 0
  }

  /** The value of a string of decimal digits. */
  function DigitsValue(s: string): (v: nat)
    requires forall i :: 0 <= i < |s| ==> IsDigit(s[i])
  {
    if |s| == 0 then 0
    else
      assert IsDigit(s[|s| - 1]);
      DigitsValue(s[..|s| - 1]) * 10 + (s[|s| - 1] as int - '0' as int)
  }

  function Pow10(n: nat): (p: nat)
    ensures p >= 1
  {
    if n == 0 then 1 else 10 * Pow10(n - 1)
  }

  /** The number whose integer digits are `whole` and whose fraction digits are `frac`. */
  function Decimal(whole: string, frac: string): real
    requires forall i :: 0 <= i < |whole| ==> IsDigit(whole[i])
    requires forall i :: 0 <= i < |frac| ==> IsDigit(frac[i])
  {
    DigitsValue(whole) as real + DigitsValue(frac) as real / Pow10(|frac|) as real
  }

  /** An unsigned decimal at the start of `s`: digits, optionally a point and more
      digits, at least one digit in all; whatever follows is ignored. */
  function Unsigned(s: string): Option<real> {
    var whole := DigitRun(s);
    if whole < |s| && s[whole] == '.' then
      Fraction(s[..whole], s[whole + 1..])
    else if whole == 0 then None
    else Some(DigitsValue(s[..whole]) as real)
  }

  /** The rest of an unsigned decimal after its point. */
  function Fraction(whole: string, rest: string): Option<real>
    requires forall i :: 0 <= i < |whole| ==> IsDigit(whole[i])
  {
    var frac := DigitRun(rest);
    if |whole| + frac == 0 then None else Some(Decimal(whole, rest[..frac]))
  }

  /** `parseFloat` of a string: leading white space skipped, then a signed decimal. */
  function ParseFloatText(s: string): Number {
    Signed(TrimStart(s))
  }

  /** An optional sign, then an unsigned decimal; `NaN` when there is none. */
  function Signed(t: string): Number {
    if |t| > 0 && (t[0] == '-' || t[0] == '+') then
      match Unsigned(t[1..])
      case None => NotANumber
      case Some(v) => Finite(if t[0] == '-' then -v else v)
    else
      match Unsigned(t)
      case None => NotANumber
      case Some(v) => Finite(v)
  }

  /** `parseFloat(v)` for a body field: a number is itself, a string is parsed, and
      anything else (whose text is not a number) is `NaN`. */
  function ParseFloat(v: Json): Number {
    match v
    case Num(n) => Finite(n)
    case Str(s) => ParseFloatText(s)
    case _ => NotANumber
  }

  /** A string of digits followed by a character that cannot continue a number reads
      as the digits' value. */
  lemma UnsignedDigits(s: string, tail: string)
    requires |s| > 0 && forall i :: 0 <= i < |s| ==> IsDigit(s[i])
    requires tail == [] || (!IsDigit(tail[0]) && tail[0] != '.')
    ensures Unsigned(s + tail) == Some(DigitsValue(s) as real)
  {
    var t := s + tail;
    if tail == [] {
      assert t == s;
      DigitRunAll(s);
    } else {
      DigitRunAppend(s, tail);
    }
    assert t[..|s|] == s;
  }

  /** After leading white space, a text that starts like a number (a digit or a point)
      reads as its unsigned decimal, or `NaN` when there is none. */
  lemma ParseUnsignedText(pad: string, t: string)
    requires AllSpace(pad) && |t| > 0 && (IsDigit(t[0]) || t[0] == '.')
    ensures ParseFloatText(pad + t)
            == match Unsigned(t)
               case None => NotANumber
               case Some(v) => Finite(v)
  {
    SkipSpace(pad, t);
  }

  /** A string of digits, after any leading white space and before anything that cannot
      continue a number, parses to the digits' value. */
  lemma ParseDigits(pad: string, s: string, tail: string)
    requires AllSpace(pad)
    requires |s| > 0 && forall i :: 0 <= i < |s| ==> IsDigit(s[i])
    requires tail == [] || (!IsDigit(tail[0]) && tail[0] != '.')
    ensures ParseFloatText(pad + (s + tail)) == Finite(DigitsValue(s) as real)
  {
    UnsignedDigits(s, tail);
    assert (s + tail)[0] == s[0];
    ParseUnsignedText(pad, s + tail);
  }

  /** After leading white space, a sign applies to the unsigned decimal that follows:
      `-` negates it, `+` keeps it, and without one the result is `NaN`. */
  lemma ParseSignedText(pad: string, sign: char, t: string)
    requires AllSpace(pad) && (sign == '-' || sign == '+')
    ensures ParseFloatText(pad + [sign] + t)
            == match Unsigned(t)
               case None => NotANumber
               case Some(v) => Finite(if sign == '-' then -v else v)
  {
    SkipToSign(pad, t, sign);
    DropFront([sign], t);
  }

  /** Leading white space before a sign is skipped. */
  lemma SkipToSign(pad: string, s: string, sign: char)
    requires AllSpace(pad) && (sign == '-' || sign == '+')
    ensures TrimStart(pad + [sign] + s) == [sign] + s
  {
    AppendAssoc(pad, [sign], s);
    SkipSpace(pad, [sign] + s);
  }

  lemma DigitRunAll(s: string)
    requires forall i :: 0 <= i < |s| ==> IsDigit(s[i])
    ensures DigitRun(s) == |s|
  {
    if |s| > 0 {
      DigitRunAll(s[1..]);
    }
  }

  lemma {:induction false} SkipSpace(pad: string, s: string)
    requires AllSpace(pad)
    requires |s| > 0 && !IsSpace(s[0])
    ensures TrimStart(pad + s) == s
  {
    if |pad| > 0 {
      assert (pad + s)[1..] == pad[1..] + s;
      SkipSpace(pad[1..], s);
    } else {
      assert pad + s == s;
    }
  }

  lemma {:induction false} DigitRunAppend(s: string, tail: string)
    requires forall i :: 0 <= i < |s| ==> IsDigit(s[i])
    requires |tail| > 0 && !IsDigit(tail[0])
    ensures DigitRun(s + tail) == |s|
  {
    if |s| > 0 {
      DropFirstOfAppend(s, tail);
      DigitRunAppend(s[1..], tail);
    } else {
      assert s + tail == tail;
    }
  }

  /** The fields of a POST or PUT body the handlers read. */
  datatype Body = Body(
    id: Json,
    name: Json,
    description: Json,
    price: Json,
    category_id: Json,
    image_url: Json,
    in_stock: Json)

  /** A row of the `products` table as these endpoints write it. */
  datatype Row = Row(
    id: string,
    name: Json,
    description: Json,
    price: Number,
    category_id: Json,
    image_url: Json,
    stock_quantity: int,
    updated_at: string)

  datatype Response = Response(status: int, error: Option<string>)

  const MissingFields: string := "Missing required fields: name, description, price, category_id"

  /** POST's check: name, description and category id truthy, price present (so a price
      of 0 passes). */
  predicate PostValid(body: Body) {
    Truthy(body.name) && Truthy(body.description) && body.price != Undefined && body.price != Null
    && Truthy(body.category_id)
  }

  /** `image_url || null`. */
  function ImageOrNull(v: Json): (r: Json)
    ensures Truthy(v) ==> r == v
    ensures !Truthy(v) ==> r == Null
  {
    if Truthy(v) then v else Null
  }

  /** `in_stock ? 1 : 0`. */
  function StockQuantity(v: Json): (q: int)
    ensures q == 1 <==> Truthy(v)
    ensures q == 0 <==> !Truthy(v)
  {
    if Truthy(v) then 1 else 0
  }

  /** The row POST inserts (its id and time stamp come from the database). */
  function PostRecord(body: Body, id: string, now: string): Row {
    Row(id, body.name, body.description, ParseFloat(body.price), body.category_id,
        ImageOrNull(body.image_url), StockQuantity(body.in_stock), now)
  }

  /** POST: 400 with the missing-fields message, else 400 with the database's message
      on an insert error, else 200; the table grows by the new row only on success. */
  function Post(rows: seq<Row>, body: Body, dbError: Option<string>, id: string, now: string): (r: (Response, seq<Row>))
    ensures !PostValid(body) ==> r == (Response(400, Some(MissingFields)), rows)
    ensures PostValid(body) && dbError.Some? ==>
              r == (Response(400, Some("Failed to create product: " + dbError.value)), rows)
    ensures PostValid(body) && dbError.None? ==> r.0 == Response(200, None) && r.1 == rows + [PostRecord(body, id, now)]
  {
    if !PostValid(body) then (Response(400, Some(MissingFields)), rows)
    else if dbError.Some? then (Response(400, Some("Failed to create product: " + dbError.value)), rows)
    else (Response(200, None), rows + [PostRecord(body, id, now)])
  }

  /** The POST handler with its `catch`: `request` is the body as read and destructured,
      or the message of the error that reading it threw (`request.json()` rejects text
      that is not JSON, and destructuring a `null` body throws). A thrown error answers
      500 with its message and writes nothing; no other outcome answers 500. */
  function PostRequest(rows: seq<Row>, request: Result<Body, string>, dbError: Option<string>, id: string, now: string)
    : (r: (Response, seq<Row>))
    ensures request.Err? ==> r == (Response(500, Some(request.error)), rows)
    ensures request.Ok? ==> r == Post(rows, request.value, dbError, id, now)
    ensures r.0.status == 500 <==> request.Err?
  {
    match request
    case Err(message) => (Response(500, Some(message)), rows)
    case Ok(body) => Post(rows, body, dbError, id, now)
  }

  /** A price of 0 is accepted; a missing or null price is not. */
  lemma PostAcceptsZeroPrice(body: Body)
    requires Truthy(body.name) && Truthy(body.description) && Truthy(body.category_id)
    ensures PostValid(body.(price := Num(0.0)))
    ensures !PostValid(body.(price := Undefined)) && !PostValid(body.(price := Null))
  {
  }

  /** PUT's patch: name, description, price and category id only when truthy (so a price
      of 0 or an empty name is never written), the image and the stock whenever they
      are present, and always the time stamp. */
  datatype Patch = Patch(
    name: Option<Json>,
    description: Option<Json>,
    price: Option<Number>,
    category_id: Option<Json>,
    image_url: Option<Json>,
    stock_quantity: Option<int>,
    updated_at: string)

  function PutPatch(body: Body, now: string): (p: Patch)
    ensures p.name.Some? <==> Truthy(body.name)
    ensures p.description.Some? <==> Truthy(body.description)
    ensures p.price.Some? <==> Truthy(body.price)
    ensures p.category_id.Some? <==> Truthy(body.category_id)
    ensures p.image_url.Some? <==> body.image_url != Undefined
    ensures p.stock_quantity.Some? <==> body.in_stock != Undefined
    ensures p.updated_at == now
    ensures Truthy(body.name) ==> p.name == Some(body.name)
    ensures Truthy(body.description) ==> p.description == Some(body.description)
    ensures Truthy(body.price) ==> p.price == Some(ParseFloat(body.price))
    ensures Truthy(body.category_id) ==> p.category_id == Some(body.category_id)
    ensures body.image_url != Undefined ==> p.image_url == Some(ImageOrNull(body.image_url))
    ensures body.in_stock != Undefined ==> p.stock_quantity == Some(StockQuantity(body.in_stock))
  {
    Patch(
      if Truthy(body.name) then Some(body.name) else None,
      if Truthy(body.description) then Some(body.description) else None,
      if Truthy(body.price) then Some(ParseFloat(body.price)) else None,
      if Truthy(body.category_id) then Some(body.category_id) else None,
      if body.image_url != Undefined then Some(ImageOrNull(body.image_url)) else None,
      if body.in_stock != Undefined then Some(StockQuantity(body.in_stock)) else None,
      now)
  }

  function Apply(row: Row, p: Patch): Row {
    row.(name := p.name.GetOr(row.name),
         description := p.description.GetOr(row.description),
         price := p.price.GetOr(row.price),
         category_id := p.category_id.GetOr(row.category_id),
         image_url := p.image_url.GetOr(row.image_url),
         stock_quantity := p.stock_quantity.GetOr(row.stock_quantity),
         updated_at := p.updated_at)
  }

  predicate Matches(row: Row, id: Json) { id == Str(row.id) }

  function PatchRows(rows: seq<Row>, id: Json, p: Patch): (r: seq<Row>)
    ensures |r| == |rows|
    ensures forall i :: 0 <= i < |rows| ==> r[i] == if Matches(rows[i], id) then Apply(rows[i], p) else rows[i]
  {
    seq(|rows|, i requires 0 <= i < |rows| => if Matches(rows[i], id) then Apply(rows[i], p) else rows[i])
  }

  predicate AnyMatch(rows: seq<Row>, id: Json) {
    exists i :: 0 <= i < |rows| && Matches(rows[i], id)
  }

  /** PUT: 400 without a truthy id, 400 with the database's message on an update error,
      404 when no row has that id, else 200 with the matching rows patched. */
  function Put(rows: seq<Row>, body: Body, dbError: Option<string>, now: string): (seq<Row>, Response) {
    if !Truthy(body.id) then (rows, Response(400, Some("Product ID is required")))
    else if dbError.Some? then (rows, Response(400, Some("Failed to update product: " + dbError.value)))
    else if !AnyMatch(rows, body.id) then (rows, Response(404, Some("Product not found")))
    else (PatchRows(rows, body.id, PutPatch(body, now)), Response(200, None))
  }

  /** The PUT handler with its `catch`, as for POST: a body that cannot be read answers
      500 with the error's message and leaves the table alone; no other outcome answers
      500. */
  function PutRequest(rows: seq<Row>, request: Result<Body, string>, dbError: Option<string>, now: string)
    : (r: (seq<Row>, Response))
    ensures request.Err? ==> r == (rows, Response(500, Some(request.error)))
    ensures request.Ok? ==> r == Put(rows, request.value, dbError, now)
    ensures r.1.status == 500 <==> request.Err?
  {
    match request
    case Err(message) => (rows, Response(500, Some(message)))
    case Ok(body) => Put(rows, body, dbError, now)
  }

  /** PUT answers 200 exactly when the id is truthy, the update succeeds and some row
      has the id; only then does the table change, and then only the matching rows:
      each takes the value the request gives for a field it carries, keeps every field
      the request leaves out, and gets the new time stamp. */
  lemma PutSpec(rows: seq<Row>, body: Body, dbError: Option<string>, now: string)
    ensures var (after, resp) := Put(rows, body, dbError, now);
            (!Truthy(body.id) ==> resp == Response(400, Some("Product ID is required")))
            && (resp.status == 200 <==> Truthy(body.id) && dbError.None? && AnyMatch(rows, body.id))
            && (resp.status == 404 <==> Truthy(body.id) && dbError.None? && !AnyMatch(rows, body.id))
            && (resp.status != 200 ==> after == rows)
            && |after| == |rows|
            && (forall i :: 0 <= i < |rows| && !Matches(rows[i], body.id) ==> after[i] == rows[i])
            && (forall i :: 0 <= i < |rows| && !Truthy(body.price) ==> after[i].price == rows[i].price)
            && (forall i :: 0 <= i < |rows| && !Truthy(body.name) ==> after[i].name == rows[i].name)
            && (resp.status == 200 ==>
                  forall i :: 0 <= i < |rows| && Matches(rows[i], body.id) ==>
                    after[i].id == rows[i].id
                    && after[i].name == (if Truthy(body.name) then body.name else rows[i].name)
                    && after[i].description == (if Truthy(body.description) then body.description else rows[i].description)
                    && after[i].price == (if Truthy(body.price) then ParseFloat(body.price) else rows[i].price)
                    && after[i].category_id == (if Truthy(body.category_id) then body.category_id else rows[i].category_id)
                    && after[i].image_url == (if body.image_url != Undefined then ImageOrNull(body.image_url) else rows[i].image_url)
                    && after[i].stock_quantity == (if body.in_stock != Undefined then StockQuantity(body.in_stock) else rows[i].stock_quantity)
                    && after[i].updated_at == now)
  {
  }

  /** Sending the same PUT twice leaves the table as sending it once. */
  lemma PutTwice(rows: seq<Row>, body: Body, now: string)
    ensures var once := Put(rows, body, None, now).0;
            Put(once, body, None, now).0 == once
  {
    var once := Put(rows, body, None, now).0;
    if Truthy(body.id) && AnyMatch(rows, body.id) {
      var k :| 0 <= k < |rows| && Matches(rows[k], body.id);
      assert Matches(once[k], body.id);
    }
  }
}
