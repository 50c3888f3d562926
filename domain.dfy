/** Entities, transfer objects and the not-found failure shared by the two services. */
module Domain {

  datatype Option<T> = None | Some(value: T)

  /** The range of a Java `Integer` (price and stock). */
  newtype Int32 = x: int | -0x8000_0000 <= x < 0x8000_0000

  /** A persisted category row. */
  datatype Category = Category(id: int, name: string)

  /** A persisted product row; the category is kept as its join column `categoryId`. */
  datatype Product = Product(id: int, name: string, description: Option<string>,
                             price: Int32, stock: Int32, categoryId: int)

  datatype CategoryResponse = CategoryResponse(id: int, name: string)

  datatype ProductResponse = ProductResponse(id: int, name: string, description: Option<string>,
                                             price: Int32, stock: Int32, category: CategoryResponse)

  /** The fields of a product create or update request once validation has passed. */
  datatype ProductFields = ProductFields(name: string, description: Option<string>,
                                         price: Int32, stock: Int32, categoryId: int)

  /** The ids of a sequence of rows or responses, in the same order. */
  function IdsOf<T>(xs: seq<T>, id: T -> int): (ids: seq<int>)
    ensures |ids| == |xs| && forall i :: 0 <= i < |xs| ==> ids[i] == id(xs[i])
  {
    seq(|xs|, i requires 0 <= i < |xs| => id(xs[i]))
  }

  /** `ResourceNotFoundException`, carrying its message. */
  datatype NotFound = ResourceNotFound(message: string)

  datatype Result<T> = Ok(value: T) | Err(error: NotFound)

  /** The outcome of a `void` service operation. */
  datatype Outcome = Done | Failed(error: NotFound)

  const CategoryPrefix := "Category not found with id: "
  const ProductPrefix := "Product not found with id: "

  /** The message names the entity kind, and the id can be read back from what follows. */
  function CategoryNotFound(id: int): (e: NotFound)
    ensures |e.message| > |CategoryPrefix| && e.message[..|CategoryPrefix|] == CategoryPrefix
    ensures ParseInt(e.message[|CategoryPrefix|..]) == id
  {
    var e := ResourceNotFound(CategoryPrefix + IntToString(id));
    assert e.message[|CategoryPrefix|..] == IntToString(id);
    ParseIntToString(id);
    e
  }

  /** The message names the entity kind, and the id can be read back from what follows. */
  function ProductNotFound(id: int): (e: NotFound)
    ensures |e.message| > |ProductPrefix| && e.message[..|ProductPrefix|] == ProductPrefix
    ensures ParseInt(e.message[|ProductPrefix|..]) == id
  {
    var e := ResourceNotFound(ProductPrefix + IntToString(id));
    assert e.message[|ProductPrefix|..] == IntToString(id);
    ParseIntToString(id);
    e
  }

  // ---------------------------------------------------------------------------
  // Decimal rendering of a Java long, as string concatenation does it

  function DigitChar(d: nat): (c: char)
    requires d < 10
    ensures '0' <= c <= '9' && c as int - '0' as int == d
  {
    (d + '0' as int) as char
  }

  function NatToString(n: nat): (s: string)
    ensures |s| > 0
    ensures forall i :: 0 <= i < |s| ==> '0' <= s[i] <= '9'
    ensures |s| > 1 ==> s[0] != '0'
    decreases n
  {
    if n < 10 then [DigitChar(n)] else NatToString(n / 10) + [DigitChar(n % 10)]
  }

  /** `Long.toString`: optional minus sign, then the decimal digits without leading zeros. */
  function IntToString(n: int): (s: string)
    ensures |s| > 0 && (s[0] == '-' <==> n < 0)
    ensures forall i :: 0 <= i < |s| && (i > 0 || n >= 0) ==> '0' <= s[i] <= '9'
  {
    if n < 0 then "-" + NatToString(-n) else NatToString(n)
  }

  /** Reads back a run of decimal digits. */
  function ParseDigits(s: string): int
    decreases |s|
  {
    if s == [] then 0 else ParseDigits(s[..|s| - 1]) * 10 + (s[|s| - 1] as int - '0' as int)
  }

  function ParseInt(s: string): int
  {
    if |s| > 0 && s[0] == '-' then -ParseDigits(s[1..]) else ParseDigits(s)
  }

  lemma {:induction false} ParseNatToString(n: nat)
    ensures ParseDigits(NatToString(n)) == n
    decreases n
  {
    if n >= 10 {
      var s := NatToString(n);
      ParseNatToString(n / 10);
      assert s[..|s| - 1] == NatToString(n / 10);
    }
  }

  /** The decimal rendering of an id can be read back, so it loses nothing. */
  lemma ParseIntToString(n: int)
    ensures ParseInt(IntToString(n)) == n
  {
    if n < 0 {
      ParseNatToString(-n);
      assert IntToString(n)[1..] == NatToString(-n);
    } else {
      ParseNatToString(n);
    }
  }

  /** Two not-found errors of the same entity kind are equal exactly when their ids are. */
  lemma NotFoundMessagesIdentify(a: int, b: int)
    ensures CategoryNotFound(a) == CategoryNotFound(b) <==> a == b
    ensures ProductNotFound(a) == ProductNotFound(b) <==> a == b
  {
  }

  /** The 404 body for a missing product with id 999. */
  lemma ProductNotFound999()
    ensures ProductNotFound(999).message == "Product not found with id: 999"
  {
    assert NatToString(9) == "9";
    assert NatToString(99) == "99";
    assert NatToString(999) == "999";
  }
}
