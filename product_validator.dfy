/** The product form's validation (src/lib/validators/product-validator.ts):
    field bounds on name, description, price and category, and a UUID
    `productId` for updates. Validation reports every failing field, in the
    order of the schema's fields. The configured category values are the
    parameter `categories`. */
module ProductValidator {
  import opened Wrappers
  import Text

  /** The fields of `ProductValidator`, already of the right types. */
  datatype ProductInput = ProductInput(name: string, description: Option<string>, price: real, category: string)

  /** `ProductUpdateValidator`: the same fields and the product's id. */
  datatype ProductUpdateInput = ProductUpdateInput(fields: ProductInput, productId: string)

  /** One failed check: the field and the message shown. */
  datatype Issue = Issue(path: string, message: string)

  const NameTooShort: string := "Name must be at least 2 characters."
  const NameTooLong: string := "Name is too long."
  const DescriptionTooLong: string := "Description is too long."
  const PriceTooLow: string := "Price must be at least $1."
  const PriceTooHigh: string := "Price is too high."
  const NoCategory: string := "Select a category."
  const InvalidUuid: string := "Invalid uuid"

  /** The bounds the schema states, field by field. */
  predicate Acceptable(input: ProductInput, categories: seq<string>) {
    && 2 <= |input.name| <= 120
    && (input.description.Some? ==> |input.description.value| <= 2000)
    && 1.0 <= input.price <= 100000.0
    && input.category in categories
  }

  function Check(failed: bool, path: string, message: string): seq<Issue> {
    if failed then [Issue(path, message)] else []
  }

  /** The fields are told apart by name, and the two messages of a field
      are different texts. */
  lemma PathsDistinct()
    ensures "name" != "description" && "name" != "price" && "name" != "category"
    ensures "description" != "price" && "description" != "category" && "price" != "category"
    ensures "productId" !in ["name", "description", "price", "category"]
    ensures NameTooShort != NameTooLong && PriceTooLow != PriceTooHigh
  {
    assert |NameTooShort| != |NameTooLong| && |PriceTooLow| != |PriceTooHigh|;
  }

  /** The issues `ProductValidator` reports. */
  function ProductIssues(input: ProductInput, categories: seq<string>): (issues: seq<Issue>)
    ensures issues == [] <==> Acceptable(input, categories)
    ensures Issue("name", NameTooShort) in issues <==> |input.name| < 2
    ensures Issue("name", NameTooLong) in issues <==> |input.name| > 120
    ensures Issue("description", DescriptionTooLong) in issues <==>
      input.description.Some? && |input.description.value| > 2000
    ensures Issue("price", PriceTooLow) in issues <==> input.price < 1.0
    ensures Issue("price", PriceTooHigh) in issues <==> input.price > 100000.0
    ensures Issue("category", NoCategory) in issues <==> input.category !in categories
  {
    PathsDistinct();
    Check(|input.name| < 2, "name", NameTooShort)
    + Check(|input.name| > 120, "name", NameTooLong)
    + Check(input.description.Some? && |input.description.value| > 2000, "description", DescriptionTooLong)
    + Check(input.price < 1.0, "price", PriceTooLow)
    + Check(input.price > 100000.0, "price", PriceTooHigh)
    + Check(input.category !in categories, "category", NoCategory)
  }

  predicate IsHexDigit(c: char) {
    '0' <= c <= '9' || 'a' <= c <= 'f' || 'A' <= c <= 'F'
  }

  /** The positions of the hyphens in `8-4-4-4-12`. */
  predicate IsHyphenPosition(k: int) {
    k == 8 || k == 13 || k == 18 || k == 23
  }

  /** zod's `uuid()`: 32 hexadecimal digits in groups of 8, 4, 4, 4 and 12,
      case-insensitive, separated by hyphens. */
  predicate IsUuid(s: string) {
    |s| == 36 && forall k :: 0 <= k < 36 ==> if IsHyphenPosition(k) then s[k] == '-' else IsHexDigit(s[k])
  }

  /** The issues `ProductUpdateValidator` reports: those of the product
      fields, then the id's. */
  function UpdateIssues(input: ProductUpdateInput, categories: seq<string>): (issues: seq<Issue>)
    ensures issues == [] <==> Acceptable(input.fields, categories) && IsUuid(input.productId)
    ensures Issue("productId", InvalidUuid) in issues <==> !IsUuid(input.productId)
    ensures |ProductIssues(input.fields, categories)| <= |issues|
    ensures issues[..|ProductIssues(input.fields, categories)|] == ProductIssues(input.fields, categories)
  {
    var own := ProductIssues(input.fields, categories);
    var id := Check(!IsUuid(input.productId), "productId", InvalidUuid);
    PathsDistinct();
    assert forall x :: x in own ==> x.path != "productId";
    own + id
  }

  /** A name of two characters that ends in a blank is accepted, and the
      seller router trims it to one character before it is stored: the bound
      is checked on the untrimmed name. */
  lemma StoredNameCanBeShort(categories: seq<string>)
    requires categories != []
    ensures var input := ProductInput("a ", None, 1.0, categories[0]);
      ProductIssues(input, categories) == [] && |Text.Trim(input.name)| < 2
  {
    var name := "a ";
    assert Text.IsSpace(name[1]);
    assert Text.TrimEnd(name) == "a";
  }
}
