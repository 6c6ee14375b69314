/** The seller procedures (src/trpc/seller-router.ts): reading one's own
    products, creating a product together with its (still empty) file row,
    and editing a product until it is approved. */
module SellerRouter {
  import opened Wrappers
  import opened Db
  import Text
  import Sorting
  import Products
  import Trpc
  import PV = ProductValidator

  /** What `sellerProductSelect` reads of a product. */
  datatype SellerProduct = SellerProduct(
    id: string,
    name: string,
    description: Option<string>,
    price: real,
    category: string,
    approvedForSale: ApprovalStatus,
    priceId: Option<string>,
    stripeId: Option<string>,
    createdAt: int,
    productFile: Option<Products.StoreProductFile>)

  /** An image of `getProduct`: its position and its media. */
  datatype SellerImage = SellerImage(sortOrder: int, media: Products.StoreImage)

  datatype SellerProductDetail = SellerProductDetail(product: SellerProduct, images: seq<SellerImage>)

  function SellerView(files: seq<ProductFile>, p: Product): SellerProduct {
    SellerProduct(p.id, p.name, p.description, p.price, p.category, p.approvedForSale, p.priceId, p.stripeId,
                  p.createdAt, Products.FileRecord(files, p))
  }

  /** The images of a product's ordered links, each with its position. */
  function SellerImagesOf(links: seq<ProductImage>, media: seq<Media>): seq<SellerImage> {
    if links == [] then []
    else
      match Find(media, MediaKey, links[0].mediaId)
      case None => SellerImagesOf(links[1..], media)
      case Some(i) => [SellerImage(links[0].sortOrder, Products.MediaView(media[i]))] + SellerImagesOf(links[1..], media)
  }

  /** The caller's id, once the private guard has passed. */
  function CallerId(ctx: Trpc.Context): string
    requires Trpc.Guard(Trpc.PrivateProcedure, ctx).Ok?
  {
    Trpc.Guard(Trpc.PrivateProcedure, ctx).value.user.value.id
  }

  /** `getProduct`: the caller's own product, with its images in ascending
      `sortOrder`. */
  function GetProduct(ctx: Trpc.Context, products: seq<Product>, files: seq<ProductFile>, links: seq<ProductImage>,
                      media: seq<Media>, productId: string): (r: Result<SellerProductDetail, Trpc.TrpcError>)
    ensures Trpc.Guard(Trpc.PrivateProcedure, ctx).Ok? && PV.IsUuid(productId) ==>
      && (r.Err? <==> forall k :: 0 <= k < |products| ==> !(products[k].id == productId && products[k].userId == CallerId(ctx)))
      && (r.Err? ==> r.error == Trpc.TrpcError(Trpc.NotFound, None))
      && (r.Ok? ==> exists k :: 0 <= k < |products| && products[k].id == productId && products[k].userId == CallerId(ctx)
                      && r.value.product == SellerView(files, products[k]))
  {
    match Trpc.Guard(Trpc.PrivateProcedure, ctx)
    case Err(e) => Err(e)
    case Ok(c) =>
      if !PV.IsUuid(productId) then Err(Trpc.TrpcError(Trpc.BadRequest, None))
      else match FindOwned(products, productId, c.user.value.id)
        case None => Err(Trpc.TrpcError(Trpc.NotFound, None))
        case Some(i) =>
          var p := products[i];
          Ok(SellerProductDetail(SellerView(files, p), SellerImagesOf(Products.OrderedLinks(links, p.id), media)))
  }

  /** Images of links at or above a position stay at or above it. */
  lemma {:induction false} SellerImagesAbove(links: seq<ProductImage>, media: seq<Media>, lo: int)
    requires forall j :: 0 <= j < |links| ==> links[j].sortOrder >= lo
    ensures forall k :: 0 <= k < |SellerImagesOf(links, media)| ==> SellerImagesOf(links, media)[k].sortOrder >= lo
  {
    if links != [] {
      assert forall j :: 0 <= j < |links[1..]| ==> links[1..][j] == links[j + 1];
      SellerImagesAbove(links[1..], media, lo);
    }
  }

  /** Images of links in ascending position are in ascending position. */
  lemma {:induction false} SellerImagesSorted(links: seq<ProductImage>, media: seq<Media>)
    requires Sorting.SortedBy(links, Products.SortOrder)
    ensures forall i, j :: 0 <= i < j < |SellerImagesOf(links, media)| ==>
      SellerImagesOf(links, media)[i].sortOrder <= SellerImagesOf(links, media)[j].sortOrder
  {
    if links != [] {
      var rest := links[1..];
      assert forall j :: 0 <= j < |rest| ==> rest[j] == links[j + 1];
      assert Sorting.SortedBy(rest, Products.SortOrder) by {
        forall i, j | 0 <= i < j < |rest| ensures rest[i].sortOrder <= rest[j].sortOrder {
          assert Products.SortOrder(links[i + 1]) <= Products.SortOrder(links[j + 1]);
        }
      }
      forall j | 0 <= j < |rest| ensures rest[j].sortOrder >= links[0].sortOrder {
        assert Products.SortOrder(links[0]) <= Products.SortOrder(links[j + 1]);
      }
      SellerImagesSorted(rest, media);
      SellerImagesAbove(rest, media, links[0].sortOrder);
      var tail := SellerImagesOf(rest, media);
      match Find(media, MediaKey, links[0].mediaId)
      case None =>
        assert SellerImagesOf(links, media) == tail;
      case Some(m) =>
        var images := [SellerImage(links[0].sortOrder, Products.MediaView(media[m]))] + tail;
        assert SellerImagesOf(links, media) == images;
        forall i, j | 0 <= i < j < |images| ensures images[i].sortOrder <= images[j].sortOrder {
          assert images[j] == tail[j - 1];
          if i > 0 {
            assert images[i] == tail[i - 1];
          }
        }
    }
  }

  /** With every media row present, one image per link, in the links' order. */
  lemma {:induction false} SellerImagesLinked(links: seq<ProductImage>, media: seq<Media>)
    requires Products.MediaLinked(links, media)
    ensures |SellerImagesOf(links, media)| == |links|
    ensures forall k :: 0 <= k < |links| ==>
      SellerImagesOf(links, media)[k]
        == SellerImage(links[k].sortOrder, Products.MediaView(media[Find(media, MediaKey, links[k].mediaId).value]))
  {
    if links != [] {
      assert Products.MediaLinked(links[1..], media) by {
        forall k | 0 <= k < |links[1..]| ensures Find(media, MediaKey, links[1..][k].mediaId).Some? {
          assert links[1..][k] == links[k + 1];
        }
      }
      SellerImagesLinked(links[1..], media);
      assert Find(media, MediaKey, links[0].mediaId).Some?;
    }
  }

  /** The images `getProduct` returns are those of the product's links in
      ascending `sortOrder`. */
  lemma GetProductLinks(ctx: Trpc.Context, products: seq<Product>, files: seq<ProductFile>, links: seq<ProductImage>,
                        media: seq<Media>, productId: string)
    ensures var r := GetProduct(ctx, products, files, links, media, productId);
      r.Ok? ==> r.value.images == SellerImagesOf(Products.OrderedLinks(links, productId), media)
  {
  }

  /** The images `getProduct` returns are in ascending `sortOrder`. */
  lemma GetProductSorted(ctx: Trpc.Context, products: seq<Product>, files: seq<ProductFile>, links: seq<ProductImage>,
                         media: seq<Media>, productId: string)
    ensures var r := GetProduct(ctx, products, files, links, media, productId);
      r.Ok? ==> forall i, j :: 0 <= i < j < |r.value.images| ==> r.value.images[i].sortOrder <= r.value.images[j].sortOrder
  {
    GetProductLinks(ctx, products, files, links, media, productId);
    SellerImagesSorted(Products.OrderedLinks(links, productId), media);
  }

  /** When every link's media row exists, the images of `getProduct` are
      exactly the product's links, a permutation of them in ascending
      `sortOrder`, each with its position and media. */
  lemma GetProductImages(ctx: Trpc.Context, products: seq<Product>, files: seq<ProductFile>, links: seq<ProductImage>,
                         media: seq<Media>, productId: string)
    requires Products.MediaLinked(links, media)
    ensures var r := GetProduct(ctx, products, files, links, media, productId);
      var ordered := Products.OrderedLinks(links, productId);
      r.Ok? ==>
        && multiset(ordered) == multiset(Products.LinksOf(links, productId))
        && |r.value.images| == |ordered|
        && Products.MediaLinked(ordered, media)
        && forall k :: 0 <= k < |ordered| ==>
             && ordered[k].productId == productId
             && r.value.images[k] == SellerImage(ordered[k].sortOrder,
                                                 Products.MediaView(media[Find(media, MediaKey, ordered[k].mediaId).value]))
  {
    var r := GetProduct(ctx, products, files, links, media, productId);
    if r.Ok? {
      var ordered := Products.OrderedLinks(links, productId);
      GetProductLinks(ctx, products, files, links, media, productId);
      assert r.value.images == SellerImagesOf(ordered, media);
      Products.OrderedLinksOwned(links, media, productId);
      SellerImagesLinked(ordered, media);
    }
  }

  function OwnedBy(products: seq<Product>, userId: string): (r: seq<Product>)
    ensures forall p :: p in r <==> p in products && p.userId == userId
  {
    if products == [] then []
    else if products[0].userId == userId then [products[0]] + OwnedBy(products[1..], userId)
    else OwnedBy(products[1..], userId)
  }

  function NewestFirst(p: Product): int { -p.createdAt }

  function SellerViews(files: seq<ProductFile>, ps: seq<Product>): (r: seq<SellerProduct>)
    ensures |r| == |ps|
    ensures forall k :: 0 <= k < |ps| ==> r[k] == SellerView(files, ps[k])
  {
    if ps == [] then [] else [SellerView(files, ps[0])] + SellerViews(files, ps[1..])
  }

  /** `listProducts`: the caller's products, newest first. */
  function ListProducts(ctx: Trpc.Context, products: seq<Product>, files: seq<ProductFile>)
    : Result<seq<SellerProduct>, Trpc.TrpcError>
  {
    match Trpc.Guard(Trpc.PrivateProcedure, ctx)
    case Err(e) => Err(e)
    case Ok(c) => Ok(SellerViews(files, Sorting.SortBy(OwnedBy(products, c.user.value.id), NewestFirst)))
  }

  /** The list shows each of the caller's products once per row it has and
      nobody else's, in descending creation time. */
  lemma ListProductsOwned(ctx: Trpc.Context, products: seq<Product>, files: seq<ProductFile>)
    requires Trpc.Guard(Trpc.PrivateProcedure, ctx).Ok?
    ensures var r := ListProducts(ctx, products, files);
      var owned := Sorting.SortBy(OwnedBy(products, CallerId(ctx)), NewestFirst);
      && r.Ok?
      && multiset(owned) == multiset(OwnedBy(products, CallerId(ctx)))
      && (forall p :: p in owned <==> p in products && p.userId == CallerId(ctx))
      && (forall i, j :: 0 <= i < j < |r.value| ==> r.value[i].createdAt >= r.value[j].createdAt)
      && (forall k :: 0 <= k < |r.value| ==> r.value[k] == SellerView(files, owned[k]))
  {
    var owned := Sorting.SortBy(OwnedBy(products, CallerId(ctx)), NewestFirst);
    forall p ensures p in owned <==> p in products && p.userId == CallerId(ctx) {
      Sorting.SameElements(owned, OwnedBy(products, CallerId(ctx)), p);
    }
    forall i, j | 0 <= i < j < |owned| ensures owned[i].createdAt >= owned[j].createdAt {
      assert NewestFirst(owned[i]) <= NewestFirst(owned[j]);
    }
  }

  /** `input.description?.trim() || null`: trimmed, and `None` when nothing
      is left. */
  function CleanDescription(d: Option<string>): (r: Option<string>)
    ensures r.None? <==> d.None? || Text.Trim(d.value) == ""
    ensures r.Some? ==> r.value == Text.Trim(d.value) && r.value != "" && Text.IsTrimmed(r.value)
  {
    if d.None? then None
    else
      var t := Text.Trim(d.value);
      if t == "" then None else Some(t)
  }

  /** What a seller mutation does: its result and the two tables it may
      write. */
  datatype SellerEffect = SellerEffect(result: Result<SellerProduct, Trpc.TrpcError>, products: seq<Product>,
                                       productFiles: seq<ProductFile>)

  /** The product row `createProduct` inserts. */
  function NewProduct(id: string, userId: string, input: PV.ProductInput, fileId: string, now: int): Product {
    Product(id, userId, Text.Trim(input.name), CleanDescription(input.description), input.price, input.category,
            Pending, None, None, Some(fileId), now)
  }

  /** `createProduct`; the fresh ids are those the database gives the two
      rows, `now` the creation time. */
  function Create(ctx: Trpc.Context, products: seq<Product>, files: seq<ProductFile>, input: PV.ProductInput,
                  categories: seq<string>, freshFileId: string, freshProductId: string, now: int): SellerEffect
  {
    match Trpc.Guard(Trpc.PrivateProcedure, ctx)
    case Err(e) => SellerEffect(Err(e), products, files)
    case Ok(c) =>
      if PV.ProductIssues(input, categories) != [] then SellerEffect(Err(Trpc.TrpcError(Trpc.BadRequest, None)), products, files)
      else
        var userId := c.user.value.id;
        var file := ProductFile(freshFileId, userId, None, None, None);
        var product := NewProduct(freshProductId, userId, input, freshFileId, now);
        var files' := files + [file];
        SellerEffect(Ok(SellerView(files', product)), products + [product], files')
  }

  /** A created product is the caller's, `PENDING`, without processor ids,
      with a trimmed name and the cleaned description, and linked to a new
      file row of the caller; a rejected input writes nothing. */
  lemma CreateLinksFile(ctx: Trpc.Context, products: seq<Product>, files: seq<ProductFile>, input: PV.ProductInput,
                        categories: seq<string>, freshFileId: string, freshProductId: string, now: int)
    requires Trpc.Guard(Trpc.PrivateProcedure, ctx).Ok?
    requires Find(files, FileKey, freshFileId).None?
    ensures var e := Create(ctx, products, files, input, categories, freshFileId, freshProductId, now);
      && (e.result.Err? <==> !PV.Acceptable(input, categories))
      && (e.result.Err? ==> e.products == products && e.productFiles == files)
      && (e.result.Ok? ==>
            var p := e.products[|products|];
            var f := e.productFiles[|files|];
            && e.products[..|products|] == products && |e.products| == |products| + 1
            && e.productFiles[..|files|] == files && |e.productFiles| == |files| + 1
            && p.userId == CallerId(ctx) && f.userId == CallerId(ctx)
            && p.productFileId == Some(f.id) && Find(e.productFiles, FileKey, f.id) == Some(|files|)
            && p.approvedForSale == Pending && p.stripeId.None? && p.priceId.None?
            && p.name == Text.Trim(input.name) && Text.IsTrimmed(p.name)
            && p.description == CleanDescription(input.description)
            && p.price == input.price && p.category == input.category
            && e.result.value.productFile == Some(Products.FileView(f)))
  {
    var e := Create(ctx, products, files, input, categories, freshFileId, freshProductId, now);
    if e.result.Ok? {
      FindAppended(files, e.productFiles[|files|]);
    }
  }

  lemma {:induction false} FindAppended(files: seq<ProductFile>, f: ProductFile)
    requires Find(files, FileKey, f.id).None?
    ensures Find(files + [f], FileKey, f.id) == Some(|files|)
  {
    if files != [] {
      FindAppended(files[1..], f);
      assert (files + [f])[1..] == files[1..] + [f];
    }
  }

  const ApprovedLocked: string := "Approved products cannot be edited yet."

  /** `updateProduct`: the owner's product, unless approved, gets the new
      name, description, price and category. The model writes the row
      `findFirst` found; the source's `update` by `id` hits that same row
      because `id` is the table's primary key (`Unique(products,
      ProductKey)`), which the model does not carry as a store invariant. */
  function Update(ctx: Trpc.Context, products: seq<Product>, files: seq<ProductFile>, input: PV.ProductUpdateInput,
                  categories: seq<string>): SellerEffect
  {
    match Trpc.Guard(Trpc.PrivateProcedure, ctx)
    case Err(e) => SellerEffect(Err(e), products, files)
    case Ok(c) =>
      if PV.UpdateIssues(input, categories) != [] then SellerEffect(Err(Trpc.TrpcError(Trpc.BadRequest, None)), products, files)
      else match FindOwned(products, input.productId, c.user.value.id)
        case None => SellerEffect(Err(Trpc.TrpcError(Trpc.NotFound, None)), products, files)
        case Some(i) =>
          if products[i].approvedForSale == Approved then
            SellerEffect(Err(Trpc.TrpcError(Trpc.Forbidden, Some(ApprovedLocked))), products, files)
          else
            var fields := input.fields;
            var updated := products[i].(name := Text.Trim(fields.name), description := CleanDescription(fields.description),
                                        price := fields.price, category := fields.category);
            SellerEffect(Ok(SellerView(files, updated)), products[i := updated], files)
  }

  /** The edit gate: someone else's or a missing product is `NOT_FOUND`, an
      approved one `FORBIDDEN`, and nothing is written; otherwise only the
      four edited fields of that one row change, so the approval state (a
      `DENIED` product stays `DENIED`) and the processor ids are kept. */
  lemma UpdateGate(ctx: Trpc.Context, products: seq<Product>, files: seq<ProductFile>, input: PV.ProductUpdateInput,
                   categories: seq<string>)
    requires Trpc.Guard(Trpc.PrivateProcedure, ctx).Ok?
    requires PV.Acceptable(input.fields, categories) && PV.IsUuid(input.productId)
    ensures var e := Update(ctx, products, files, input, categories);
      var i := FindOwned(products, input.productId, CallerId(ctx));
      && e.productFiles == files
      && (i.None? <==> e.result == Err(Trpc.TrpcError(Trpc.NotFound, None)))
      && (i.Some? && products[i.value].approvedForSale == Approved <==>
            e.result == Err(Trpc.TrpcError(Trpc.Forbidden, Some(ApprovedLocked))))
      && (e.result.Err? ==> e.products == products)
      && (e.result.Ok? ==>
            && i.Some?
            && |e.products| == |products|
            && (forall k :: 0 <= k < |products| && k != i.value ==> e.products[k] == products[k])
            && var before := products[i.value];
            var after := e.products[i.value];
            && after.approvedForSale == before.approvedForSale != Approved
            && after.stripeId == before.stripeId && after.priceId == before.priceId
            && after.id == before.id && after.userId == before.userId
            && after.productFileId == before.productFileId && after.createdAt == before.createdAt
            && after.name == Text.Trim(input.fields.name) && Text.IsTrimmed(after.name)
            && after.description == CleanDescription(input.fields.description)
            && after.price == input.fields.price && after.category == input.fields.category)
  {
    assert PV.UpdateIssues(input, categories) == [];
  }

  /** `createProduct` on the database: both rows in one step. */
  method CreateProduct(db: Store, ctx: Trpc.Context, input: PV.ProductInput, categories: seq<string>,
                       freshFileId: string, freshProductId: string, now: int)
    returns (result: Result<SellerProduct, Trpc.TrpcError>)
    modifies db
    ensures SellerEffect(result, db.products, db.productFiles)
         == Create(ctx, old(db.products), old(db.productFiles), input, categories, freshFileId, freshProductId, now)
    ensures db.users == old(db.users) && db.orders == old(db.orders)
    ensures db.media == old(db.media) && db.productImages == old(db.productImages)
  {
    var guard := Trpc.Guard(Trpc.PrivateProcedure, ctx);
    if guard.Err? {
      return Err(guard.error);
    }
    if PV.ProductIssues(input, categories) != [] {
      return Err(Trpc.TrpcError(Trpc.BadRequest, None));
    }
    var user := guard.value.user.value;
    var description := CleanDescription(input.description);
    var productFile := ProductFile(freshFileId, user.id, None, None, None);
    var product := Product(freshProductId, user.id, Text.Trim(input.name), description, input.price, input.category,
                           Pending, None, None, Some(productFile.id), now);
    db.productFiles, db.products := db.productFiles + [productFile], db.products + [product];
    return Ok(SellerView(db.productFiles, product));
  }

  /** `updateProduct` on the database. */
  method UpdateProduct(db: Store, ctx: Trpc.Context, input: PV.ProductUpdateInput, categories: seq<string>)
    returns (result: Result<SellerProduct, Trpc.TrpcError>)
    modifies db
    ensures SellerEffect(result, db.products, db.productFiles)
         == Update(ctx, old(db.products), old(db.productFiles), input, categories)
    ensures db.users == old(db.users) && db.orders == old(db.orders)
    ensures db.media == old(db.media) && db.productImages == old(db.productImages)
  {
    var guard := Trpc.Guard(Trpc.PrivateProcedure, ctx);
    if guard.Err? {
      return Err(guard.error);
    }
    if PV.UpdateIssues(input, categories) != [] {
      return Err(Trpc.TrpcError(Trpc.BadRequest, None));
    }
    var found := FindOwned(db.products, input.productId, guard.value.user.value.id);
    if found.None? {
      return Err(Trpc.TrpcError(Trpc.NotFound, None));
    }
    var i := found.value;
    if db.products[i].approvedForSale == Approved {
      return Err(Trpc.TrpcError(Trpc.Forbidden, Some(ApprovedLocked)));
    }
    var description := CleanDescription(input.fields.description);
    var updated := db.products[i].(name := Text.Trim(input.fields.name), description := description,
                                   price := input.fields.price, category := input.fields.category);
    db.products := db.products[i := updated];
    return Ok(SellerView(db.productFiles, updated));
  }
}
