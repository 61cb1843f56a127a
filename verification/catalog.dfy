/**
  The records the inventory report works on.

  A product refers to a category by id; a category carries the fraction of
  the price it takes off. Prices and discounts are exact reals: the model
  does not follow binary floating point.
 */
module Catalog {

  /** A product record: identifier, display name, category reference, base price. */
  datatype Product = Product(id: int, name: string, categoryId: int, price: real)

  /** A category record: identifier and discount factor. */
  datatype Category = Category(id: int, discount: real)

  /** The label given to a report entry by its discounted price. */
  datatype Tier = Standard | Premium

  /** Some category in `categories` has identifier `id`. */
  predicate HasCategory(categories: seq<Category>, id: int)
  {
    exists k :: 0 <= k < |categories| && categories[k].id == id
  }

  /** Position `k` holds the last category in list order whose identifier is `id`. */
  predicate IsLastMatch(categories: seq<Category>, id: int, k: int)
  {
    && 0 <= k < |categories|
    && categories[k].id == id
    && forall j :: k < j < |categories| ==> categories[j].id != id
  }

  /** Every id that occurs has a last occurrence, so "last match" and "no
      match" between them cover every category id. */
  lemma {:induction false} LastMatchExists(categories: seq<Category>, id: int)
    requires HasCategory(categories, id)
    ensures exists k :: IsLastMatch(categories, id, k)
    decreases |categories|
  {
    var n := |categories|;
    if categories[n - 1].id == id {
      assert IsLastMatch(categories, id, n - 1);
    } else {
      var init := categories[..n - 1];
      var k0 :| 0 <= k0 < n && categories[k0].id == id;
      assert init[k0] == categories[k0];
      LastMatchExists(init, id);
      var k :| IsLastMatch(init, id, k);
      assert IsLastMatch(categories, id, k);
    }
  }
}
