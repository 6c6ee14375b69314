/** The store shape of a product (src/lib/products.ts, src/types/product.ts):
    the record the `productSelect` query reads, and `mapProductRecord`, which
    turns it into what the pages show. */
module Products {
  import opened Wrappers
  import opened Db
  import Sorting

  datatype StoreImage = StoreImage(id: string, url: Option<string>, filename: Option<string>,
                                   width: Option<int>, height: Option<int>)

  datatype StoreProductFile = StoreProductFile(id: string, url: Option<string>, filename: Option<string>,
                                               mimeType: Option<string>)

  /** One element of `images` in the record: `{ media }`. */
  datatype ImageEntry = ImageEntry(media: StoreImage)

  /** What `productSelect` reads of a product. */
  datatype ProductRecord = ProductRecord(
    id: string,
    name: string,
    description: Option<string>,
    price: real,
    category: string,
    productFile: Option<StoreProductFile>,
    images: seq<ImageEntry>)

  datatype StoreProduct = StoreProduct(
    id: string,
    name: string,
    description: Option<string>,
    price: real,
    category: string,
    images: seq<StoreImage>,
    productFile: Option<StoreProductFile>)

  /** `images.map(({ media }) => media)`: the media of each entry, in order. */
  function MediaOf(entries: seq<ImageEntry>): (images: seq<StoreImage>)
    ensures |images| == |entries|
    ensures forall k :: 0 <= k < |entries| ==> images[k] == entries[k].media
  {
    if entries == [] then [] else [entries[0].media] + MediaOf(entries[1..])
  }

  /** `mapProductRecord`. A missing product file (`undefined` or `null`) is
      `None` on both sides. */
  function MapProductRecord(r: ProductRecord): (p: StoreProduct)
    ensures p.id == r.id && p.name == r.name && p.description == r.description
    ensures p.price == r.price && p.category == r.category
    ensures |p.images| == |r.images|
    ensures forall k :: 0 <= k < |r.images| ==> p.images[k] == r.images[k].media
    ensures p.productFile == r.productFile
  {
    StoreProduct(r.id, r.name, r.description, r.price, r.category, MediaOf(r.images), r.productFile)
  }

  function FileView(f: ProductFile): StoreProductFile {
    StoreProductFile(f.id, f.url, f.filename, f.mimeType)
  }

  function MediaView(m: Media): StoreImage {
    StoreImage(m.id, m.url, m.filename, m.width, m.height)
  }

  function SortOrder(link: ProductImage): int { link.sortOrder }

  /** The image links of one product, in table order. */
  function LinksOf(links: seq<ProductImage>, productId: string): (r: seq<ProductImage>)
    ensures forall k :: 0 <= k < |r| ==> r[k].productId == productId
    ensures forall l :: l in links && l.productId == productId <==> l in r
  {
    if links == [] then []
    else if links[0].productId == productId then [links[0]] + LinksOf(links[1..], productId)
    else LinksOf(links[1..], productId)
  }

  /** `orderBy: { sortOrder: 'asc' }` over the product's links. */
  function OrderedLinks(links: seq<ProductImage>, productId: string): seq<ProductImage> {
    Sorting.SortBy(LinksOf(links, productId), SortOrder)
  }

  /** The media of each link, in the order of the links; a link whose media
      row is missing (the foreign key rules it out) contributes nothing. */
  function EntriesOf(links: seq<ProductImage>, media: seq<Media>): seq<ImageEntry> {
    if links == [] then []
    else
      match Find(media, MediaKey, links[0].mediaId)
      case None => EntriesOf(links[1..], media)
      case Some(i) => [ImageEntry(MediaView(media[i]))] + EntriesOf(links[1..], media)
  }

  /** The `productFile` relation of product `p`. */
  function FileRecord(files: seq<ProductFile>, p: Product): Option<StoreProductFile> {
    if p.productFileId.None? then None
    else match Find(files, FileKey, p.productFileId.value)
      case None => None
      case Some(i) => Some(FileView(files[i]))
  }

  /** The record `productSelect` reads for product `p`. */
  function SelectRecord(files: seq<ProductFile>, links: seq<ProductImage>, media: seq<Media>, p: Product): ProductRecord {
    ProductRecord(p.id, p.name, p.description, p.price, p.category, FileRecord(files, p), EntriesOf(OrderedLinks(links, p.id), media))
  }

  /** Every link's media row exists. */
  ghost predicate MediaLinked(links: seq<ProductImage>, media: seq<Media>) {
    forall k :: 0 <= k < |links| ==> Find(media, MediaKey, links[k].mediaId).Some?
  }

  lemma {:induction false} EntriesOfLinked(links: seq<ProductImage>, media: seq<Media>)
    requires MediaLinked(links, media)
    ensures |EntriesOf(links, media)| == |links|
    ensures forall k :: 0 <= k < |links| ==>
      EntriesOf(links, media)[k].media == MediaView(media[Find(media, MediaKey, links[k].mediaId).value])
  {
    if links != [] {
      assert MediaLinked(links[1..], media) by {
        forall k | 0 <= k < |links[1..]| ensures Find(media, MediaKey, links[1..][k].mediaId).Some? {
          assert links[1..][k] == links[k + 1];
        }
      }
      EntriesOfLinked(links[1..], media);
      assert Find(media, MediaKey, links[0].mediaId).Some?;
    }
  }

  /** The ordered links are the product's own links, each with its media. */
  lemma OrderedLinksOwned(links: seq<ProductImage>, media: seq<Media>, productId: string)
    requires MediaLinked(links, media)
    ensures MediaLinked(OrderedLinks(links, productId), media)
    ensures forall k :: 0 <= k < |OrderedLinks(links, productId)| ==> OrderedLinks(links, productId)[k].productId == productId
  {
    var own := LinksOf(links, productId);
    var ordered := OrderedLinks(links, productId);
    forall k | 0 <= k < |ordered|
      ensures ordered[k].productId == productId && Find(media, MediaKey, ordered[k].mediaId).Some?
    {
      Sorting.SameElements(ordered, own, ordered[k]);
      assert ordered[k] in links;
      var j :| 0 <= j < |links| && links[j] == ordered[k];
    }
  }

  /** The images of a mapped product are the media of that product's links,
      a permutation of them in ascending `sortOrder`, one image per link and
      in that order. */
  lemma ImagesInSortOrder(files: seq<ProductFile>, links: seq<ProductImage>, media: seq<Media>, p: Product)
    requires MediaLinked(links, media)
    ensures
      var ordered := OrderedLinks(links, p.id);
      var images := MapProductRecord(SelectRecord(files, links, media, p)).images;
      && Sorting.SortedBy(ordered, SortOrder)
      && multiset(ordered) == multiset(LinksOf(links, p.id))
      && |images| == |ordered|
      && MediaLinked(ordered, media)
      && forall k :: 0 <= k < |ordered| ==>
           ordered[k].productId == p.id
           && images[k] == MediaView(media[Find(media, MediaKey, ordered[k].mediaId).value])
  {
    var ordered := OrderedLinks(links, p.id);
    OrderedLinksOwned(links, media, p.id);
    EntriesOfLinked(ordered, media);
    assert SelectRecord(files, links, media, p).images == EntriesOf(ordered, media);
  }
}
