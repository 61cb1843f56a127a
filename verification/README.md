# Inventory report generator — Dafny model

`refactor_project.js` holds two versions of one inventory report generator.
Both turn a list of products into a list of report entries. Each entry's
price is reduced by the discount of the product's category. Each entry is
labelled Premium or Standard by that reduced price.

- `getInventoryReport` is the first version. For every product it scans
  the whole category list and overwrites the applied discount on every
  category whose id matches, starting from 0. The entry copies every
  product field and adds the two-decimal discounted price and the tier.
- `getInventoryReportOptimized` is the second version. It builds a `Map`
  from category id to discount once, then maps every product to an entry
  of id, name, two-decimal discounted price and tier. A missing category
  gives discount 0 (`|| 0`).

The model is four modules:

- `Catalog` (catalog.dfy): the product and category records, the tier,
  and two predicates over the category list: "some category has this id"
  and "position k is the last category with this id".
- `CategoryDiscount` (discount.dfy): the scanning lookup as a function
  (`ScanDiscount`) and as the imperative loop (`ScanCategories`). Also the
  index (`BuildIndex`), the `|| 0` fallback (`OrZero`), and the proof that
  the index lookup equals the scan for every id, duplicates included.
- `Pricing` (pricing.dfy): `price * (1 - discount)`, the tier rule with its
  strict threshold of 50, and `toFixed(2)` on exact reals (`Round2`).
- `InventoryReport` (report.dfy): the first version as a method with an
  index loop, the second as a function over the product sequence, and the
  lemma that the second equals the first narrowed to id, name, discounted
  price and tier.

Prices and discounts are exact reals; nothing follows binary floating
point. `Round2` is the rounding `toFixed(2)` defines, taken on the exact
value: the magnitude goes to the nearest hundredth, ties go up, and the
sign is put back, so ties round away from zero. Both versions show this
rounded value. The first version shows it as a string, the second as a
number. The model keeps the numeric value for both.

Rounding is for display only: in both versions the tier compares the
unrounded price, so 50.004 is shown as 50.00 and is Premium
(`TierIgnoresRounding`).

Inputs are immutable Dafny sequences, so neither version can modify its
inputs. Both versions are deterministic: the second is a Dafny function,
and the first has one possible result (`NaiveReportDeterministic`).

## Model

| member | source | states |
|---|---|---|
| Catalog.LastMatchExists | refactor_project.js:23-27 | every category id that occurs in the list has a last occurrence, so the last-match and no-match cases cover every product |
| CategoryDiscount.ScanDiscount | refactor_project.js:21-27 | the scanned discount is 0 when no category has the id, and otherwise the discount of some category with that id |
| CategoryDiscount.ScanFindsLastMatch | refactor_project.js:23-27 | the scan yields the discount of the last category in list order whose id matches; later matches overwrite earlier ones |
| CategoryDiscount.ScanCategories | refactor_project.js:21-27 | the inner loop of the first version ends holding 0 when nothing matches and the last match's discount otherwise |
| CategoryDiscount.BuildIndex | refactor_project.js:58 | the index's keys are exactly the category ids in the list, and each key maps to the discount of a category with that id |
| CategoryDiscount.OrZero | refactor_project.js:62 | `found \|\| 0` gives 0 for a missing entry and the found discount otherwise (a zero discount stays 0) |
| CategoryDiscount.IndexAgreesWithScan | refactor_project.js:21-62 | for every category id, looking it up in the index gives the same discount as the full scan, duplicate ids included |
| CategoryDiscount.IndexIsLastWriteWins | refactor_project.js:58 | a repeated id keeps the discount of its last occurrence in the list |
| CategoryDiscount.MissingCategoryIsZero | refactor_project.js:62 | an id no category carries resolves to discount 0 under both lookups |
| Pricing.DiscountedPrice | refactor_project.js:30 | a zero discount leaves the price unchanged; a non-negative price under a discount in [0, 1] stays between 0 and the price |
| Pricing.TierOf | refactor_project.js:34-35 | the tier is Premium exactly when the price is strictly above 50, so exactly 50 is Standard |
| Pricing.Round2 | refactor_project.js:39 | `toFixed(2)` yields a whole number of hundredths within half a hundredth of its input, and keeps non-negative values non-negative |
| Pricing.Round2OfCents | refactor_project.js:69 | a value that already has two decimals is shown unchanged |
| Pricing.Round2Idempotent | refactor_project.js:69 | rounding a rounded value changes nothing |
| InventoryReport.GetInventoryReport | refactor_project.js:14-46 | one entry per product in input order; each carries its product; price and tier come from the last matching category's discount, or from the undiscounted price when none matches |
| InventoryReport.MapProducts | refactor_project.js:61-72 | `products.map` gives one entry per product, entry i built from product i |
| InventoryReport.GetInventoryReportOptimized | refactor_project.js:53-76 | one entry per product in input order with the product's id and name; price and tier come from the last matching category's discount, or from the undiscounted price when none matches |
| InventoryReport.OptimizedEntryUnderLastMatch | refactor_project.js:62-70 | an optimised entry is priced and tiered by the discount of the last category with its product's category id |
| InventoryReport.OptimizedEntriesUnderLastMatch | refactor_project.js:61-72 | the same for every entry of the mapped report |
| InventoryReport.EntryAgrees | refactor_project.js:20-71 | for any single product, the optimised entry equals the first version's entry narrowed to id, name, discounted price and tier |
| InventoryReport.OptimizedAgreesWithNaive | refactor_project.js:14-76 | the optimised report equals the first version's report narrowed to id, name, discounted price and tier |
| InventoryReport.NaiveReportDeterministic | refactor_project.js:14-46 | two results of the first version on the same inputs are equal |
| InventoryReport.TierIgnoresRounding | refactor_project.js:69-70 | a product priced 50.004 with no category is shown as 50.00 yet labelled Premium |
| InventoryReport.ThresholdExample | refactor_project.js:62-70 | price 100 under discount 0.5 gives the entry (1, "A", 50.00, Standard) |

## Left out

- Timing output (`console.time` / `console.timeEnd`): wall-clock I/O with no effect on the result.
- The module-level sample data built with `Math.random()` and the two top-level calls: fixtures, and random.
- Binary floating point: prices and discounts are exact reals, so the product `price * (1 - discount)` and the rounding are exact.
- Pricing.Round2: does not model the string form `toFixed` returns, its exponent notation for magnitudes of 10^21 and above, or the `Number(...)` parse back; the first version's entry and the second's carry the same numeric value.
- The first version's entry copies every product field; the model keeps the whole product record, and the comparison with the second version uses only id, name, discounted price and tier.
- JavaScript truthiness of non-numeric or `NaN` discounts in `|| 0`: discounts are reals, where only 0 is falsy.
- The O(N·M) versus O(N+M) cost claim in the comments: a performance statement, not behaviour.
- Input validation (negative prices, discounts outside [0, 1]): the code does none, and the model accepts any real.
