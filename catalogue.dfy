/** The public catalogue (`getInfiniteProducts`, src/trpc/index.ts): the
    approved products, optionally of one category and ordered by creation
    time, read one page at a time; a page asks for one row more than it shows
    to learn whether a next page exists. */
module Catalogue {
  import opened Wrappers
  import opened Db
  import Sorting
  import Products
  import Trpc

  datatype SortDir = Asc | Desc

  /** The `query` of the input: its `sort` and `category`. */
  datatype CatalogueQuery = CatalogueQuery(sort: Option<SortDir>, category: Option<string>)

  datatype CatalogueInput = CatalogueInput(limit: int, cursor: Option<int>, query: CatalogueQuery)

  datatype CataloguePage = CataloguePage(items: seq<Products.StoreProduct>, nextPage: Option<int>)

  /** `where: { approvedForSale: 'APPROVED', ...(category ? { category } : {}) }`:
      an empty category filters nothing. */
  predicate Matches(p: Product, category: Option<string>) {
    p.approvedForSale == Approved && (Present(category) ==> p.category == category.value)
  }

  function Listed(products: seq<Product>, category: Option<string>): (r: seq<Product>)
    ensures forall k :: 0 <= k < |r| ==> Matches(r[k], category)
    ensures forall p :: p in r <==> p in products && Matches(p, category)
  {
    if products == [] then []
    else if Matches(products[0], category) then [products[0]] + Listed(products[1..], category)
    else Listed(products[1..], category)
  }

  function CreatedAt(p: Product): int { p.createdAt }

  function NewestFirst(p: Product): int { -p.createdAt }

  /** `orderBy: sort ? { createdAt: sort } : undefined`; without `sort` the
      table order stands. */
  function Ordered(rows: seq<Product>, sort: Option<SortDir>): seq<Product> {
    match sort
    case None => rows
    case Some(Asc) => Sorting.SortBy(rows, CreatedAt)
    case Some(Desc) => Sorting.SortBy(rows, NewestFirst)
  }

  /** What `skip` and `take` select: at most `take` rows from position
      `skip` on. */
  function Window<T>(rows: seq<T>, skip: nat, take: nat): (w: seq<T>)
    ensures |w| == if skip >= |rows| then 0 else if |rows| - skip < take then |rows| - skip else take
    ensures forall k :: 0 <= k < |w| ==> w[k] == rows[skip + k]
  {
    if skip >= |rows| then [] else
      var rest := rows[skip..];
      if |rest| < take then rest else rest[..take]
  }

  /** `.map(mapProductRecord)` over the rows `productSelect` reads. */
  function Views(rows: seq<Product>, files: seq<ProductFile>, links: seq<ProductImage>, media: seq<Media>)
    : (r: seq<Products.StoreProduct>)
    ensures |r| == |rows|
    ensures forall k :: 0 <= k < |rows| ==>
      r[k] == Products.MapProductRecord(Products.SelectRecord(files, links, media, rows[k]))
  {
    if rows == [] then []
    else
      [Products.MapProductRecord(Products.SelectRecord(files, links, media, rows[0]))]
      + Views(rows[1..], files, links, media)
  }

  /** The rows a page shows, before mapping, once the input is accepted. */
  function PageRows(products: seq<Product>, input: CatalogueInput): seq<Product> {
    Ordered(Listed(products, input.query.category), input.query.sort)
  }

  /** `page = cursor ?? 1`: a `cursor` of 0 is kept. */
  function PageOf(input: CatalogueInput): int {
    input.cursor.GetOr(1)
  }

  /** `skip = (page - 1) * limit`. */
  function SkipOf(input: CatalogueInput): (skip: int)
    ensures input.limit >= 1 ==> (skip < 0 <==> PageOf(input) < 1)
  {
    var page := PageOf(input);
    assert input.limit >= 1 ==> (page < 1 <==> (page - 1) * input.limit < 0) by {
      if input.limit >= 1 {
        if page < 1 {
          assert (page - 1) * input.limit <= (page - 1) * 1;
        } else {
          assert (page - 1) * input.limit >= 0;
        }
      }
    }
    (page - 1) * input.limit
  }

  /** `getInfiniteProducts`. An input outside its schema (`limit` outside
      1..100) is a `BAD_REQUEST`; a page before the first (`cursor` below 1)
      gives a negative `skip`, which the database rejects. */
  function GetInfiniteProducts(products: seq<Product>, files: seq<ProductFile>, links: seq<ProductImage>,
                               media: seq<Media>, input: CatalogueInput): (r: Result<CataloguePage, Trpc.TrpcError>)
    ensures !(1 <= input.limit <= 100) ==> r == Err(Trpc.TrpcError(Trpc.BadRequest, None))
    ensures 1 <= input.limit <= 100 ==> (r.Err? <==> PageOf(input) < 1)
    ensures r.Ok? ==>
      var rows := PageRows(products, input);
      var skip := SkipOf(input);
      && 0 <= skip
      && |r.value.items| == (if |rows| <= skip then 0 else if |rows| - skip < input.limit then |rows| - skip else input.limit)
      && (forall k :: 0 <= k < |r.value.items| ==>
            r.value.items[k] == Products.MapProductRecord(Products.SelectRecord(files, links, media, rows[skip + k])))
      && (r.value.nextPage.Some? <==> |rows| > skip + input.limit)
      && (r.value.nextPage.Some? ==> r.value.nextPage.value == PageOf(input) + 1)
  {
    if !(1 <= input.limit <= 100) then Err(Trpc.TrpcError(Trpc.BadRequest, None))
    else
      var page := PageOf(input);
      var skip := SkipOf(input);
      if skip < 0 then Err(Trpc.TrpcError(Trpc.InternalServerError, None))
      else
        var fetched := Window(PageRows(products, input), skip, input.limit + 1);
        var hasNextPage := |fetched| > input.limit;
        var shown := if hasNextPage then fetched[..input.limit] else fetched;
        Ok(CataloguePage(Views(shown, files, links, media), if hasNextPage then Some(page + 1) else None))
  }

  /** Every product a page shows is approved and, when a category is given,
      of that category. */
  lemma PageOnlyApproved(products: seq<Product>, input: CatalogueInput, k: nat)
    requires k < |PageRows(products, input)|
    ensures PageRows(products, input)[k].approvedForSale == Approved
    ensures Present(input.query.category) ==> PageRows(products, input)[k].category == input.query.category.value
  {
    var listed := Listed(products, input.query.category);
    var rows := PageRows(products, input);
    match input.query.sort
    case None =>
    case Some(Asc) => Sorting.SameElements(rows, listed, rows[k]);
    case Some(Desc) => Sorting.SameElements(rows, listed, rows[k]);
  }

  /** With `sort`, the rows are a reordering of the matching products by
      creation time in that direction. */
  lemma PageRowsSorted(products: seq<Product>, input: CatalogueInput)
    requires input.query.sort.Some?
    ensures multiset(PageRows(products, input)) == multiset(Listed(products, input.query.category))
    ensures input.query.sort == Some(Asc) ==>
      forall i, j :: 0 <= i < j < |PageRows(products, input)| ==>
        PageRows(products, input)[i].createdAt <= PageRows(products, input)[j].createdAt
    ensures input.query.sort == Some(Desc) ==>
      forall i, j :: 0 <= i < j < |PageRows(products, input)| ==>
        PageRows(products, input)[i].createdAt >= PageRows(products, input)[j].createdAt
  {
    var listed := Listed(products, input.query.category);
    match input.query.sort.value
    case Desc =>
      NewestFirstDescending(Sorting.SortBy(listed, NewestFirst));
    case Asc =>
      OldestFirstAscending(Sorting.SortBy(listed, CreatedAt));
  }

  lemma OldestFirstAscending(rows: seq<Product>)
    requires Sorting.SortedBy(rows, CreatedAt)
    ensures forall i, j :: 0 <= i < j < |rows| ==> rows[i].createdAt <= rows[j].createdAt
  {
    forall i, j | 0 <= i < j < |rows| ensures rows[i].createdAt <= rows[j].createdAt {
      assert CreatedAt(rows[i]) <= CreatedAt(rows[j]);
    }
  }

  lemma NewestFirstDescending(rows: seq<Product>)
    requires Sorting.SortedBy(rows, NewestFirst)
    ensures forall i, j :: 0 <= i < j < |rows| ==> rows[i].createdAt >= rows[j].createdAt
  {
    forall i, j | 0 <= i < j < |rows| ensures rows[i].createdAt >= rows[j].createdAt {
      assert NewestFirst(rows[i]) <= NewestFirst(rows[j]);
    }
  }

  /** Following `nextPage` reads on exactly where the previous page stopped:
      this page is full, and the first product of the next page is the row
      after its last one. */
  lemma NextPageContinues(products: seq<Product>, files: seq<ProductFile>, links: seq<ProductImage>,
                          media: seq<Media>, input: CatalogueInput)
    requires GetInfiniteProducts(products, files, links, media, input).Ok?
    requires GetInfiniteProducts(products, files, links, media, input).value.nextPage.Some?
    ensures var cur := GetInfiniteProducts(products, files, links, media, input).value;
      var next := GetInfiniteProducts(products, files, links, media, input.(cursor := cur.nextPage));
      && |cur.items| == input.limit
      && next.Ok? && |next.value.items| > 0
      && next.value.items[0]
         == Products.MapProductRecord(Products.SelectRecord(files, links, media,
              PageRows(products, input)[SkipOf(input) + input.limit]))
  {
    var page := PageOf(input);
    var nextInput := input.(cursor := Some(page + 1));
    var rows := PageRows(products, input);
    var skip := SkipOf(input);
    assert PageRows(products, nextInput) == rows;
    SkipOfNext(input);
    assert |rows| > skip + input.limit;
    var nxt := GetInfiniteProducts(products, files, links, media, nextInput);
    assert PageOf(nextInput) >= 1;
    assert nxt.Ok?;
    assert |nxt.value.items| > 0;
    assert nxt.value.items[0] == Products.MapProductRecord(Products.SelectRecord(files, links, media, rows[skip + input.limit]));
  }

  /** The next page starts `limit` rows further on. */
  lemma SkipOfNext(input: CatalogueInput)
    ensures SkipOf(input.(cursor := Some(PageOf(input) + 1))) == SkipOf(input) + input.limit
  {
    var page := PageOf(input);
    Distribute(page, input.limit);
  }

  lemma Distribute(a: int, b: int)
    ensures a * b == (a - 1) * b + b
  {
  }
}
