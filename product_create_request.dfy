/** The field constraints of `ProductCreateRequest`, as a function from a request to its field errors. */
module Validation {
  import opened Domain

  /** The request body as bound from JSON; every field may be null. */
  datatype ProductCreateRequest = ProductCreateRequest(name: Option<string>, description: Option<string>,
                                                       price: Option<Int32>, stock: Option<Int32>,
                                                       categoryId: Option<int>)

  const NameMax: nat := 100
  const DescriptionMax: nat := 500

  const NameRequired := "Product name is required"
  const NameTooLong := "Product name must be at most 100 chracters"
  // The limit is 500; the message says 100.
  const DescriptionTooLong := "Decription must be at most 100 chracters"
  const PriceRequired := "Price is required"
  const PriceNegative := "Price must be >= 0"
  const StockRequired := "Stock is required"
  const StockNegative := "Stock must be >= 0"
  const CategoryIdRequired := "CategoryId is required"

  const Fields: set<string> := {"name", "description", "price", "stock", "categoryId"}

  /** The number of UTF-16 code units of `s`, which is what `String.length()` counts. */
  function Utf16Length(s: string): (n: nat)
    ensures |s| <= n <= 2 * |s|
  {
    if s == [] then 0 else (if s[0] as int > 0xFFFF then 2 else 1) + Utf16Length(s[1..])
  }

  /** `String.trim()`: strips the characters up to U+0020 from both ends. */
  function Trim(s: string): string
  {
    TrimEnd(TrimStart(s))
  }

  function TrimStart(s: string): string
  {
    if s != [] && s[0] <= ' ' then TrimStart(s[1..]) else s
  }

  function TrimEnd(s: string): string
  {
    if s != [] && s[|s| - 1] <= ' ' then TrimEnd(s[..|s| - 1]) else s
  }

  /** Trimming from the start leaves nothing exactly when every character is at most U+0020,
      and otherwise stops at a character above it. */
  lemma {:induction false} TrimStartCases(s: string)
    ensures TrimStart(s) == [] <==> forall i :: 0 <= i < |s| ==> s[i] <= ' '
    ensures TrimStart(s) != [] ==> TrimStart(s)[0] > ' '
    decreases |s|
  {
    if s != [] && s[0] <= ' ' {
      TrimStartCases(s[1..]);
      assert forall i :: 1 <= i < |s| ==> s[i] == s[1..][i - 1];
    }
  }

  /** Trimming from the end keeps a first character above U+0020. */
  lemma {:induction false} TrimEndKeepsHead(s: string)
    requires s != [] && s[0] > ' '
    ensures TrimEnd(s) != []
    decreases |s|
  {
    if s[|s| - 1] <= ' ' {
      TrimEndKeepsHead(s[..|s| - 1]);
    }
  }

  /** `String.trim()` leaves nothing exactly when every character is at most U+0020. */
  lemma TrimEmptyIffSpaces(s: string)
    ensures Trim(s) == [] <==> forall i :: 0 <= i < |s| ==> s[i] <= ' '
  {
    TrimStartCases(s);
    if TrimStart(s) != [] {
      TrimEndKeepsHead(TrimStart(s));
    }
  }

  /** `@NotBlank`: not null, and something is left after `String.trim()`. */
  predicate NotBlank(s: Option<string>): (b: bool)
    ensures b <==> s.Some? && Trim(s.value) != []
  {
    if s.None? then false
    else
      TrimEmptyIffSpaces(s.value);
      exists i :: 0 <= i < |s.value| && s.value[i] > ' '
  }

  /** `@Size(max = ...)`: null passes. Since a character is one or two UTF-16 units, more than
      `max` characters always fail and at most half of `max` always pass. */
  predicate SizeAtMost(s: Option<string>, max: nat): (b: bool)
    ensures s.Some? && |s.value| > max ==> !b
    ensures s.Some? && 2 * |s.value| <= max ==> b
  {
    s.None? || Utf16Length(s.value) <= max
  }

  /** `@Min(value = 0)`: null passes. */
  predicate NotNegative(x: Option<Int32>)
  {
    x.None? || x.value >= 0
  }

  /** The message of a constraint, when the constraint fails. */
  function Fail(holds: bool, message: string): set<string>
  {
    if holds then {} else {message}
  }

  /** The messages of every failed constraint on `field`; a field only ever carries the messages of
      its own annotations. */
  function Messages(req: ProductCreateRequest, field: string): (ms: set<string>)
    ensures field !in Fields ==> ms == {}
    ensures field == "name" ==> ms <= {NameRequired, NameTooLong}
    ensures field == "description" ==> ms <= {DescriptionTooLong}
    ensures field == "price" ==> ms <= {PriceRequired, PriceNegative}
    ensures field == "stock" ==> ms <= {StockRequired, StockNegative}
    ensures field == "categoryId" ==> ms <= {CategoryIdRequired}
  {
    if field == "name" then
      Fail(NotBlank(req.name), NameRequired) + Fail(SizeAtMost(req.name, NameMax), NameTooLong)
    else if field == "description" then
      Fail(SizeAtMost(req.description, DescriptionMax), DescriptionTooLong)
    else if field == "price" then
      Fail(req.price.Some?, PriceRequired) + Fail(NotNegative(req.price), PriceNegative)
    else if field == "stock" then
      Fail(req.stock.Some?, StockRequired) + Fail(NotNegative(req.stock), StockNegative)
    else if field == "categoryId" then
      Fail(req.categoryId.Some?, CategoryIdRequired)
    else
      {}
  }

  /** A request every constraint accepts, stated directly on the fields. */
  predicate Acceptable(req: ProductCreateRequest)
  {
    && req.name.Some? && (exists i :: 0 <= i < |req.name.value| && req.name.value[i] > ' ')
    && Utf16Length(req.name.value) <= 100
    && (req.description.Some? ==> Utf16Length(req.description.value) <= 500)
    && req.price.Some? && req.price.value >= 0
    && req.stock.Some? && req.stock.value >= 0
    && req.categoryId.Some?
  }

  /** The 400 body: field name to the messages of its failed constraints, all reported together. */
  function Validate(req: ProductCreateRequest): (errors: map<string, set<string>>)
    ensures errors.Keys <= Fields
    ensures forall f :: f in errors ==> errors[f] != {}
  {
    map f | f in Fields && Messages(req, f) != {} :: Messages(req, f)
  }

  /** No field error is reported exactly when the request is acceptable. */
  lemma ValidateEmptyIffAcceptable(req: ProductCreateRequest)
    ensures Validate(req) == map[] <==> Acceptable(req)
  {
    var errors := Validate(req);
    if Acceptable(req) {
      forall f | f in Fields ensures Messages(req, f) == {} {
      }
      assert errors.Keys == {};
    } else if !NotBlank(req.name) || !SizeAtMost(req.name, NameMax) {
      assert "name" in errors;
    } else if !SizeAtMost(req.description, DescriptionMax) {
      assert "description" in errors;
    } else if !(req.price.Some? && req.price.value >= 0) {
      assert "price" in errors;
    } else if !(req.stock.Some? && req.stock.value >= 0) {
      assert "stock" in errors;
    } else {
      assert "categoryId" in errors;
    }
  }

  lemma NameRule(req: ProductCreateRequest)
    ensures "name" in Validate(req) <==> !NotBlank(req.name) || !SizeAtMost(req.name, NameMax)
    ensures "name" in Validate(req) ==>
      && Validate(req)["name"] <= {NameRequired, NameTooLong}
      && (NameRequired in Validate(req)["name"] <==> req.name.None? || forall i :: 0 <= i < |req.name.value| ==> req.name.value[i] <= ' ')
      && (NameTooLong in Validate(req)["name"] <==> req.name.Some? && Utf16Length(req.name.value) > 100)
  {
  }

  lemma DescriptionRule(req: ProductCreateRequest)
    ensures req.description.None? ==> "description" !in Validate(req)
    ensures "description" in Validate(req) <==> req.description.Some? && Utf16Length(req.description.value) > 500
    ensures "description" in Validate(req) ==> Validate(req)["description"] == {DescriptionTooLong}
  {
  }

  lemma PriceRule(req: ProductCreateRequest)
    ensures req.price.None? ==> "price" in Validate(req) && Validate(req)["price"] == {PriceRequired}
    ensures req.price.Some? && req.price.value < 0 ==> "price" in Validate(req) && Validate(req)["price"] == {PriceNegative}
    ensures req.price.Some? && req.price.value >= 0 ==> "price" !in Validate(req)
  {
  }

  lemma StockRule(req: ProductCreateRequest)
    ensures req.stock.None? ==> "stock" in Validate(req) && Validate(req)["stock"] == {StockRequired}
    ensures req.stock.Some? && req.stock.value < 0 ==> "stock" in Validate(req) && Validate(req)["stock"] == {StockNegative}
    ensures req.stock.Some? && req.stock.value >= 0 ==> "stock" !in Validate(req)
  {
  }

  lemma CategoryIdRule(req: ProductCreateRequest)
    ensures "categoryId" in Validate(req) <==> req.categoryId.None?
    ensures req.categoryId.None? ==> Validate(req)["categoryId"] == {CategoryIdRequired}
  {
  }

  /** A blank name with price, stock and categoryId missing reports all four fields at once. */
  lemma BlankNameAndMissingNumbers()
    ensures var errors := Validate(ProductCreateRequest(Some(""), None, None, None, None));
      && errors.Keys == {"name", "price", "stock", "categoryId"}
      && errors["name"] == {NameRequired} && errors["price"] == {PriceRequired}
      && errors["stock"] == {StockRequired} && errors["categoryId"] == {CategoryIdRequired}
  {
    var req := ProductCreateRequest(Some(""), None, None, None, None);
    assert Utf16Length("") == 0;
    NameRule(req);
    DescriptionRule(req);
    PriceRule(req);
    StockRule(req);
    CategoryIdRule(req);
  }

  /** A name of 101 spaces fails both of its constraints, and both messages are kept. */
  lemma BlankAndTooLongName()
    ensures var name := seq(101, _ => ' ');
      Validate(ProductCreateRequest(Some(name), None, Some(0), Some(0), Some(1)))
        == map["name" := {NameRequired, NameTooLong}]
  {
    var name := seq(101, _ => ' ');
    var req := ProductCreateRequest(Some(name), None, Some(0), Some(0), Some(1));
    assert !NotBlank(req.name);
    assert Messages(req, "name") == {NameRequired, NameTooLong};
    assert Validate(req).Keys == {"name"};
  }

  /** What the controller hands to the service, or the 400 body when validation fails. */
  datatype Binding = Accepted(fields: ProductFields) | Rejected(errors: map<string, set<string>>)

  /** `@Valid`: the service is reached only with a request that has no field errors. */
  function Bind(req: ProductCreateRequest): (b: Binding)
    ensures b.Rejected? <==> Validate(req) != map[]
    ensures b.Rejected? ==> b.errors == Validate(req)
    ensures b.Accepted? ==>
      && req.name == Some(b.fields.name) && req.description == b.fields.description
      && req.price == Some(b.fields.price) && req.stock == Some(b.fields.stock)
      && req.categoryId == Some(b.fields.categoryId)
      && b.fields.price >= 0 && b.fields.stock >= 0 && Utf16Length(b.fields.name) <= NameMax
  {
    var errors := Validate(req);
    ValidateEmptyIffAcceptable(req);
    if errors == map[] then
      Accepted(ProductFields(req.name.value, req.description, req.price.value, req.stock.value, req.categoryId.value))
    else
      Rejected(errors)
  }

  /** The valid request of the controller test reaches the service unchanged. */
  lemma ValidRequestAccepted()
    ensures Bind(ProductCreateRequest(Some("remera"), Some("algodon"), Some(1000), Some(10), Some(1)))
         == Accepted(ProductFields("remera", Some("algodon"), 1000, 10, 1))
  {
    var req := ProductCreateRequest(Some("remera"), Some("algodon"), Some(1000), Some(10), Some(1));
    assert req.name.value[0] > ' ';
    ValidateEmptyIffAcceptable(req);
  }
}
