/**
  The two inventory report generators and their agreement.

  The first version walks the products by index and, for each, scans the
  whole category list; its entries carry every field of the product plus
  the discounted price and the tier. The second version indexes the
  categories once and maps each product to a narrower entry (id, name,
  discounted price, tier). On the fields both carry they are equal.
 */
module InventoryReport {
  import opened Catalog
  import opened CategoryDiscount
  import opened Pricing

  /** An entry of the first version: the whole product, its two-decimal
      discounted price and its tier. */
  datatype NaiveEntry = NaiveEntry(product: Product, discountedPrice: real, tier: Tier)

  /** An entry of the second version. */
  datatype ReportEntry = ReportEntry(id: int, name: string, discountedPrice: real, tier: Tier)

  /** What the first version emits for one product. */
  function NaiveEntryFor(product: Product, categories: seq<Category>): NaiveEntry
  {
    var discountedPrice := DiscountedPrice(product.price, ScanDiscount(categories, product.categoryId));
    NaiveEntry(product, Round2(discountedPrice), TierOf(discountedPrice))
  }

  /** `report` is what the first version returns: one entry per product, in order. */
  predicate IsNaiveReport(products: seq<Product>, categories: seq<Category>, report: seq<NaiveEntry>)
  {
    && |report| == |products|
    && forall i :: 0 <= i < |products| ==> report[i] == NaiveEntryFor(products[i], categories)
  }

  /** The first report version: an index loop over the products with a
      full scan of the categories (`ScanCategories`) inside it. */
  method GetInventoryReport(products: seq<Product>, categories: seq<Category>) returns (finalReport: seq<NaiveEntry>)
    ensures |finalReport| == |products|
    ensures forall i :: 0 <= i < |products| ==> finalReport[i].product == products[i]
    ensures forall i, k :: 0 <= i < |products| && IsLastMatch(categories, products[i].categoryId, k) ==>
      var exact := DiscountedPrice(products[i].price, categories[k].discount);
      finalReport[i].discountedPrice == Round2(exact) && finalReport[i].tier == TierOf(exact)
    ensures forall i :: 0 <= i < |products| && !HasCategory(categories, products[i].categoryId) ==>
      finalReport[i].discountedPrice == Round2(products[i].price) && finalReport[i].tier == TierOf(products[i].price)
    ensures IsNaiveReport(products, categories, finalReport)
  {
    finalReport := [];
    var i := 0;
    while i < |products|
      invariant 0 <= i <= |products|
      invariant |finalReport| == i
      invariant forall n :: 0 <= n < i ==> finalReport[n] == NaiveEntryFor(products[n], categories)
    {
      var product := products[i];
      var appliedDiscount := ScanCategories(categories, product.categoryId);
      var discountedPrice := DiscountedPrice(product.price, appliedDiscount);
      var status;
      if discountedPrice > PremiumThreshold {
        status := Premium;
      } else {
        status := Standard;
      }
      finalReport := finalReport + [NaiveEntry(product, Round2(discountedPrice), status)];
      i := i + 1;
    }
    forall i, k | 0 <= i < |products| && IsLastMatch(categories, products[i].categoryId, k)
      ensures var exact := DiscountedPrice(products[i].price, categories[k].discount);
        finalReport[i].discountedPrice == Round2(exact) && finalReport[i].tier == TierOf(exact)
    {
      ScanFindsLastMatch(categories, products[i].categoryId, k);
    }
  }

  /** What the second version emits for one product, given the category index. */
  function OptimizedEntry(product: Product, index: map<int, real>): ReportEntry
  {
    var discountedPrice := DiscountedPrice(product.price, IndexedDiscount(index, product.categoryId));
    ReportEntry(product.id, product.name, Round2(discountedPrice), TierOf(discountedPrice))
  }

  /** `products.map(...)`: one entry per product, in order. */
  function MapProducts(products: seq<Product>, index: map<int, real>): (report: seq<ReportEntry>)
    ensures |report| == |products|
    ensures forall i :: 0 <= i < |products| ==> report[i] == OptimizedEntry(products[i], index)
    decreases |products|
  {
    if |products| == 0 then []
    else [OptimizedEntry(products[0], index)] + MapProducts(products[1..], index)
  }

  /** The second report version: index the categories, then map the products. */
  function GetInventoryReportOptimized(products: seq<Product>, categories: seq<Category>): (report: seq<ReportEntry>)
    ensures |report| == |products|
    ensures forall i :: 0 <= i < |products| ==>
      report[i].id == products[i].id && report[i].name == products[i].name
    ensures forall i, k :: 0 <= i < |products| && IsLastMatch(categories, products[i].categoryId, k) ==>
      var exact := DiscountedPrice(products[i].price, categories[k].discount);
      report[i].discountedPrice == Round2(exact) && (report[i].tier == Premium <==> exact > PremiumThreshold)
    ensures forall i :: 0 <= i < |products| && !HasCategory(categories, products[i].categoryId) ==>
      report[i].discountedPrice == Round2(products[i].price)
      && (report[i].tier == Premium <==> products[i].price > PremiumThreshold)
  {
    var index := BuildIndex(categories);
    var report := MapProducts(products, index);
    OptimizedEntriesUnderLastMatch(products, categories, report);
    report
  }

  lemma {:induction false} OptimizedEntriesUnderLastMatch(products: seq<Product>, categories: seq<Category>, report: seq<ReportEntry>)
    requires |report| == |products|
    requires forall i :: 0 <= i < |products| ==> report[i] == OptimizedEntry(products[i], BuildIndex(categories))
    ensures forall i, k :: 0 <= i < |products| && IsLastMatch(categories, products[i].categoryId, k) ==>
      var exact := DiscountedPrice(products[i].price, categories[k].discount);
      report[i].discountedPrice == Round2(exact) && (report[i].tier == Premium <==> exact > PremiumThreshold)
  {
    forall i, k | 0 <= i < |products| && IsLastMatch(categories, products[i].categoryId, k)
      ensures var exact := DiscountedPrice(products[i].price, categories[k].discount);
        report[i].discountedPrice == Round2(exact) && (report[i].tier == Premium <==> exact > PremiumThreshold)
    {
      OptimizedEntryUnderLastMatch(products[i], categories, k);
    }
  }

  lemma {:induction false} OptimizedEntryUnderLastMatch(product: Product, categories: seq<Category>, k: int)
    requires IsLastMatch(categories, product.categoryId, k)
    ensures var entry := OptimizedEntry(product, BuildIndex(categories));
      var exact := DiscountedPrice(product.price, categories[k].discount);
      entry.discountedPrice == Round2(exact) && (entry.tier == Premium <==> exact > PremiumThreshold)
  {
    var d := categories[k].discount;
    IndexIsLastWriteWins(categories, product.categoryId, k);
    assert IndexedDiscount(BuildIndex(categories), product.categoryId) == d;
    var exact := DiscountedPrice(product.price, d);
    assert OptimizedEntry(product, BuildIndex(categories)) == ReportEntry(product.id, product.name, Round2(exact), TierOf(exact));
  }

  /** The fields the second version keeps from an entry of the first. */
  function Narrow(entry: NaiveEntry): ReportEntry
  {
    ReportEntry(entry.product.id, entry.product.name, entry.discountedPrice, entry.tier)
  }

  /** For one product, the optimised entry is the first version's entry
      narrowed: the indexed discount equals the scanned one. */
  lemma {:induction false} EntryAgrees(product: Product, categories: seq<Category>)
    ensures OptimizedEntry(product, BuildIndex(categories)) == Narrow(NaiveEntryFor(product, categories))
  {
    IndexAgreesWithScan(categories, product.categoryId);
  }

  /** The two versions agree: the optimised report is the first version's
      report narrowed to id, name, discounted price and tier. */
  lemma {:induction false} OptimizedAgreesWithNaive(products: seq<Product>, categories: seq<Category>, naive: seq<NaiveEntry>)
    requires IsNaiveReport(products, categories, naive)
    ensures |GetInventoryReportOptimized(products, categories)| == |naive|
    ensures forall i :: 0 <= i < |naive| ==> GetInventoryReportOptimized(products, categories)[i] == Narrow(naive[i])
  {
    var report := GetInventoryReportOptimized(products, categories);
    forall i | 0 <= i < |naive|
      ensures report[i] == Narrow(naive[i])
    {
      EntryAgrees(products[i], categories);
    }
  }

  /** The first version's report is fully determined by its inputs. */
  lemma NaiveReportDeterministic(products: seq<Product>, categories: seq<Category>, r1: seq<NaiveEntry>, r2: seq<NaiveEntry>)
    requires IsNaiveReport(products, categories, r1)
    requires IsNaiveReport(products, categories, r2)
    ensures r1 == r2
  {
  }

  /** The tier follows the unrounded price: an entry can show 50.00 and
      still be Premium. */
  lemma TierIgnoresRounding()
    ensures var report := GetInventoryReportOptimized([Product(7, "P", 3, 50.004)], []);
      report[0].discountedPrice == 50.0 && report[0].tier == Premium
  {
    var report := GetInventoryReportOptimized([Product(7, "P", 3, 50.004)], []);
    assert !HasCategory([], 3);
    assert (50.004 * 100.0 + 0.5).Floor == 5000;
  }

  /** A product priced 100 in a category with discount 0.5 lands exactly on
      the threshold and is Standard. */
  lemma ThresholdExample()
    ensures GetInventoryReportOptimized([Product(1, "A", 1, 100.0)], [Category(1, 0.5)])
      == [ReportEntry(1, "A", 50.0, Standard)]
  {
    var categories := [Category(1, 0.5)];
    var report := GetInventoryReportOptimized([Product(1, "A", 1, 100.0)], categories);
    assert IsLastMatch(categories, 1, 0);
    assert (50.0 * 100.0 + 0.5).Floor == 5000;
  }
}
