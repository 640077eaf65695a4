/**
 * The shapes the remote catalog API returns for the products query: one
 * page of product edges with its page information. Edge wrappers
 * (`edges[i].node`) are dropped: a product's images and variants are the
 * plain sequences of their nodes. Variant metafields are fetched by the
 * query but never read, so they are not part of these shapes.
 */
module RemoteCatalog {
  import opened Results

  /** One entry of a variant's `selectedOptions`. */
  datatype SelectedOption = SelectedOption(name: string, value: string)

  /** A product variant; `price` is a decimal kept as text. */
  datatype RemoteVariant = RemoteVariant(
    price: string,
    inventoryQuantity: int,
    sku: string,
    selectedOptions: seq<SelectedOption>)

  /** An image node. */
  datatype Image = Image(originalSrc: string)

  /** A product node. */
  datatype RemoteProduct = RemoteProduct(
    id: string,
    title: string,
    description: string,
    productType: string,
    status: string,
    images: seq<Image>,
    variants: seq<RemoteVariant>)

  /** The `after` argument of the query; `None` is the `null` cursor of the first request. */
  type Cursor = Option<string>

  datatype PageInfo = PageInfo(hasNextPage: bool, endCursor: Cursor)

  /** `response.body.data.products` */
  datatype Page = Page(pageInfo: PageInfo, edges: seq<RemoteProduct>)

  /** The error the client throws when the API rejects a query. */
  datatype FetchError = GraphqlQueryError(message: string)

  /** The remote API as seen by the loop: the answer to a products query for each cursor. */
  type Api = Cursor -> Result<Page, FetchError>
}
