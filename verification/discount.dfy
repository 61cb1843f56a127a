/**
  The two ways the report finds a product's category discount.

  The first report version scans the whole category list for each product
  and overwrites the applied discount on every match, so the last match in
  list order wins and no match leaves the initial 0. The second version
  builds a map from category id to discount once (one insertion per
  category, in list order, so a repeated id keeps its last discount) and
  looks the product's category up in it, falling back to 0.
 */
module CategoryDiscount {
  import opened Catalog

  /** The discount the scanning loop holds after it has visited every
      category in `categories`, starting from 0. Defined on prefixes, so
      that one more category is one more loop iteration. */
  function ScanDiscount(categories: seq<Category>, id: int): (d: real)
    ensures !HasCategory(categories, id) ==> d == 0.0
    ensures HasCategory(categories, id) ==>
      exists k :: 0 <= k < |categories| && categories[k].id == id && d == categories[k].discount
    decreases |categories|
  {
    if |categories| == 0 then 0.0
    else
      var init := categories[..|categories| - 1];
      var last := categories[|categories| - 1];
      assert forall k :: 0 <= k < |init| ==> init[k] == categories[k];
      if last.id == id then last.discount else ScanDiscount(init, id)
  }

  /** The scan returns the discount of the last category whose id matches. */
  lemma {:induction false} ScanFindsLastMatch(categories: seq<Category>, id: int, k: int)
    requires IsLastMatch(categories, id, k)
    ensures ScanDiscount(categories, id) == categories[k].discount
    decreases |categories|
  {
    var n := |categories|;
    if k < n - 1 {
      var init := categories[..n - 1];
      assert IsLastMatch(init, id, k);
      ScanFindsLastMatch(init, id, k);
    }
  }

  /** The scanning loop over `categories` for the category id `id`, as
      written in the first report version. */
  method ScanCategories(categories: seq<Category>, id: int) returns (appliedDiscount: real)
    ensures appliedDiscount == ScanDiscount(categories, id)
    ensures !HasCategory(categories, id) ==> appliedDiscount == 0.0
    ensures forall k :: IsLastMatch(categories, id, k) ==> appliedDiscount == categories[k].discount
  {
    appliedDiscount := 0.0;
    var j := 0;
    while j < |categories|
      invariant 0 <= j <= |categories|
      invariant appliedDiscount == ScanDiscount(categories[..j], id)
    {
      if categories[j].id == id {
        appliedDiscount := categories[j].discount;
      }
      assert categories[..j + 1][..j] == categories[..j];
      j := j + 1;
    }
    assert categories[..j] == categories;
    forall k | IsLastMatch(categories, id, k)
      ensures appliedDiscount == categories[k].discount
    {
      ScanFindsLastMatch(categories, id, k);
    }
  }

  /** The category index of the second report version: one insertion per
      category, in list order, so a later entry overwrites an earlier one
      with the same id. */
  function BuildIndex(categories: seq<Category>): (index: map<int, real>)
    ensures forall id :: id in index <==> HasCategory(categories, id)
    ensures forall id :: id in index ==>
      exists k :: 0 <= k < |categories| && categories[k].id == id && index[id] == categories[k].discount
    decreases |categories|
  {
    if |categories| == 0 then map[]
    else
      var init := categories[..|categories| - 1];
      var last := categories[|categories| - 1];
      assert forall k :: 0 <= k < |init| ==> init[k] == categories[k];
      BuildIndex(init)[last.id := last.discount]
  }

  /** The answer of a keyed lookup that may find nothing. */
  datatype Option<T> = None | Some(value: T)

  /** A map lookup that may find nothing. */
  function Get(index: map<int, real>, id: int): Option<real>
  {
    if id in index then Some(index[id]) else None
  }

  /** `found || 0` on a number: a missing entry and a zero discount both
      give 0, every other discount is kept. */
  function OrZero(found: Option<real>): (d: real)
    ensures found.None? ==> d == 0.0
    ensures found.Some? ==> d == found.value
  {
    match found
    case None => 0.0
    case Some(x) => if x == 0.0 then 0.0 else x
  }

  /** The discount the second report version applies to category id `id`. */
  function IndexedDiscount(index: map<int, real>, id: int): real
  {
    OrZero(Get(index, id))
  }

  /** The indexed lookup gives the same discount as the full scan, for
      every category id, duplicates included. */
  lemma {:induction false} IndexAgreesWithScan(categories: seq<Category>, id: int)
    ensures IndexedDiscount(BuildIndex(categories), id) == ScanDiscount(categories, id)
    decreases |categories|
  {
    var n := |categories|;
    if n > 0 {
      var init := categories[..n - 1];
      var last := categories[n - 1];
      if last.id != id {
        IndexAgreesWithScan(init, id);
        assert Get(BuildIndex(categories), id) == Get(BuildIndex(init), id);
      }
    }
  }

  /** The index keeps, for every id that occurs, the discount of its last
      occurrence in list order. */
  lemma {:induction false} IndexIsLastWriteWins(categories: seq<Category>, id: int, k: int)
    requires IsLastMatch(categories, id, k)
    ensures id in BuildIndex(categories)
    ensures BuildIndex(categories)[id] == categories[k].discount
  {
    ScanFindsLastMatch(categories, id, k);
    IndexAgreesWithScan(categories, id);
  }

  /** A category id that no category carries resolves to discount 0 under
      both lookups. */
  lemma MissingCategoryIsZero(categories: seq<Category>, id: int)
    requires !HasCategory(categories, id)
    ensures IndexedDiscount(BuildIndex(categories), id) == 0.0
    ensures ScanDiscount(categories, id) == 0.0
  {
  }
}
