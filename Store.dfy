/**
 * The product store: the persisted product list, looked up by identifier,
 * appended to by create and rewritten slot by slot by update. Each write of
 * the whole list either succeeds or fails; its outcome is a parameter here.
 */
module Store {
  import opened Types

  /** findIndex by identifier: the first position holding `id`, or None. */
  function FindIndex(products: seq<Product>, id: string): (r: Option<nat>)
    ensures r.Some? ==> r.value < |products| && products[r.value].id == id
    ensures r.Some? ==> forall j :: 0 <= j < r.value ==> products[j].id != id
    ensures r.None? <==> forall j :: 0 <= j < |products| ==> products[j].id != id
  {
    if products == [] then None
    else if products[0].id == id then Some(0)
    else match FindIndex(products[1..], id)
      case Some(k) => Some(k + 1)
      case None => None
  }

  ghost predicate DistinctIds(products: seq<Product>) {
    forall i, j :: 0 <= i < j < |products| ==> products[i].id != products[j].id
  }

  /** In a list without duplicate identifiers, the search finds the one position holding the identifier. */
  lemma FindIndexOfDistinct(products: seq<Product>, i: nat)
    requires DistinctIds(products) && i < |products|
    ensures FindIndex(products, products[i].id) == Some(i)
  {
  }

  /** The shallow merge `{...product, ...updates}`: a field present in the update wins, all others stay. */
  function MergeUpdate(product: Product, updates: ProductUpdateData): (r: Product)
    ensures updates.title.Some? ==> r.title == updates.title.value
    ensures updates.title.None? ==> r.title == product.title
    ensures updates.description.Some? ==> r.description == updates.description.value
    ensures updates.description.None? ==> r.description == product.description
    ensures updates.basePrice.Some? ==> r.basePrice == updates.basePrice.value
    ensures updates.basePrice.None? ==> r.basePrice == product.basePrice
    ensures updates.stockQuantity.Some? ==> r.stockQuantity == updates.stockQuantity.value
    ensures updates.stockQuantity.None? ==> r.stockQuantity == product.stockQuantity
    ensures updates.specifications.Some? ==> r.specifications == updates.specifications.value
    ensures updates.specifications.None? ==> r.specifications == product.specifications
    ensures r == product.(title := r.title, description := r.description, basePrice := r.basePrice,
                          stockQuantity := r.stockQuantity, specifications := r.specifications)
  {
    product.(
      title := updates.title.GetOr(product.title),
      description := updates.description.GetOr(product.description),
      basePrice := updates.basePrice.GetOr(product.basePrice),
      stockQuantity := updates.stockQuantity.GetOr(product.stockQuantity),
      specifications := updates.specifications.GetOr(product.specifications))
  }

  lemma MergeIsIdempotent(product: Product, updates: ProductUpdateData)
    ensures MergeUpdate(MergeUpdate(product, updates), updates) == MergeUpdate(product, updates)
  {
  }

  lemma MergeOfNothingIsIdentity(product: Product)
    ensures MergeUpdate(product, ProductUpdateData(None, None, None, None, None)) == product
  {
  }

  class ProductStore {
    /** The list as last written to the backing file. */
    var products: seq<Product>

    constructor (initial: seq<Product>)
      ensures products == initial
    {
      products := initial;
    }

    /** getProductById: the first product with the identifier, or None when there is none. */
    function GetProductById(id: string): (r: Option<Product>)
      reads this
      ensures r.None? <==> forall p :: p in products ==> p.id != id
      ensures r.Some? ==> r.value.id == id
      ensures r.Some? ==> exists i :: 0 <= i < |products| && products[i] == r.value
                                      && forall j :: 0 <= j < i ==> products[j].id != id
    {
      match FindIndex(products, id)
      case Some(i) => Some(products[i])
      case None => None
    }

    /**
     * createProduct: refused, with nothing written, when the identifier is taken;
     * otherwise the product is appended and the write's outcome is returned.
     */
    method CreateProduct(product: Product, writeSucceeds: bool) returns (ok: bool)
      modifies this
      ensures FindIndex(old(products), product.id).Some? ==> !ok && products == old(products)
      ensures FindIndex(old(products), product.id).None? ==>
                ok == writeSucceeds && products == (if ok then old(products) + [product] else old(products))
      ensures DistinctIds(old(products)) ==> DistinctIds(products)
      ensures ok ==> GetProductById(product.id) == Some(product)
    {
      if FindIndex(products, product.id).Some? {
        return false;
      }
      var updated := products + [product];
      if writeSucceeds {
        products := updated;
      }
      ok := writeSucceeds;
      assert ok ==> products[|products| - 1] == product;
    }

    /**
     * updateProduct: None, with nothing written, for an unknown identifier; otherwise
     * the first matching slot is replaced by the merge, and the merged product is
     * returned when the write succeeds.
     */
    method UpdateProduct(id: string, updates: ProductUpdateData, writeSucceeds: bool) returns (r: Option<Product>)
      modifies this
      ensures FindIndex(old(products), id).None? ==> r.None? && products == old(products)
      ensures FindIndex(old(products), id).Some? ==>
                var i := FindIndex(old(products), id).value;
                var merged := MergeUpdate(old(products)[i], updates);
                if writeSucceeds then r == Some(merged) && products == old(products)[i := merged]
                else r.None? && products == old(products)
      ensures |products| == |old(products)|
      ensures DistinctIds(old(products)) ==> DistinctIds(products)
      ensures r.Some? ==> GetProductById(id) == r
    {
      var index := FindIndex(products, id);
      if index.None? {
        return None;
      }
      var i := index.value;
      var updated := products[i := MergeUpdate(products[i], updates)];
      assert updated[i].id == id;
      assert forall j :: 0 <= j < i ==> updated[j] == products[j];
      if writeSucceeds {
        products := updated;
        assert FindIndex(products, id) == Some(i);
        r := Some(products[i]);
      } else {
        r := None;
      }
    }
  }
}
