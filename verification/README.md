# Receipt core in Dafny

A model of the receipt service of a small receipt-keeping web application,
and proofs about it. The application records purchases (products with unit
price and quantity, and one payment), computes the receipt total and the
change due, stores receipts per user, lists and fetches them, and renders a
receipt as fixed-width plain text for a till slip.

The model covers four parts:

- **Domain arithmetic** (`domain.dfy`). Money is counted in integer cents, so totals are exact.
  - A product's line total is price × quantity.
  - `calculate_total` sums the line totals.
  - The change ("rest") is amount − total for a cash payment, even when it goes negative, and 0 for every other payment type.
  - The payment type is a datatype with a third case, `Other(name)`, for the unconstrained strings the service accepts.
- **Renderer** (`text.dfy`, `money.dfy`, `wordwrap.dfy`, `formatting.dfy`). It maps a receipt and a width `W` to text and keeps:
  - Python's `str.center`, `ljust`, `rjust` and `split`;
  - the `:.2f` and `:,.2f` number formats, with the grouping comma turned into a space;
  - the greedy name wrapper, which charges the separating space even on an empty line;
  - the conditional payment caption;
  - the layout of header, product blocks, totals and footer, joined by newlines.
  - Two source failures become a `Result` error: a product name with no words (an `IndexError` on the empty list of name lines) and a receipt with no creation time.
- **Receipt store** (`records.dfy`, `mappers.dfy`, `repository.dfy`). The database is a sequence of rows in insertion order.
  - Saving appends a row under a fresh key and a public identifier that must be unused (the unique constraint).
  - Lookup by id is scoped to the owner; lookup by public identifier is not.
  - Listing applies the filters as a conjunction, counts before paginating, and cuts the page `[offset, offset + limit)`.
  - The mapper copies the stored columns back and recomputes each product's line total.
- **Service and input schema** (`schemas.dfy`, `service.dfy`).
  - Creation builds the entity, computes totals and saves it.
  - The three queries return the repository's answer unchanged.
  - Validation accepts a price ≥ 0, a quantity > 0 and an amount > 0, and any payment-type string. It accepts an empty product list and rejects a payment without an amount.

Three behaviours of the code are worth stating outright:

- **Centring** follows CPython's `str.center`: the odd space goes on the left when both the margin and the width are odd (`Text.Center`, `Text.CenterExamples`).
- **Empty product list:** nothing rejects it.
- **Width:** the render width is never validated.

Inputs that the source takes from the environment are parameters:

- the database's fresh primary key is `Repository.NextId`, one past the largest key in use;
- the generated public identifier is a parameter `pid` of `Save` and `CreateReceipt`;
- the server's `now()` is a parameter `now`.

## Model

| member | source | states |
|---|---|---|
| Domain.LineTotal | src/domain/models.py:15-17 | a product's line total is non-negative when its price and quantity are, and 0 for quantity 0; it is price × quantity, recomputed wherever a product is rebuilt |
| Domain.SumTotals | src/domain/models.py:49 | Python's `sum` of the line totals as a left fold from 0; its properties are stated by `SumTotalsConcat`, `SumTotalsPermutation` and `SumTotalsNonNegative` |
| Domain.RestFor | src/domain/models.py:50-54 | for cash, total plus change is the amount paid (so the change is negative when underpaid); for any other type the change is 0 |
| Domain.NotBefore | src/repositories/receipt_repository.py:64 | `created_at >= created_after` compared field by field from the year down to the second; that it is a total order is stated by `NotBeforeIsTotalOrder` |
| Domain.NotBeforeIsTotalOrder | src/repositories/receipt_repository.py:64 | the comparison is reflexive, antisymmetric, transitive and total, as `datetime`'s `>=` is on times to the second |
| Domain.CalculateTotal | src/domain/models.py:48-54 | the total becomes the sum of the line totals (0 for no products); rest is amount − total for cash, negative when underpaid, and 0 for card or any other type whatever the amount; nothing but total and rest changes |
| Domain.CalculateTotalIdempotent | src/domain/models.py:48-54 | a second `calculate_total` yields the same receipt |
| Domain.CalculateTotalFixesConsistent | src/domain/models.py:48-54 | a receipt whose total and rest already obey the rules is left as it is |
| Domain.SumTotalsConcat | src/domain/models.py:49 | the sum over two product lists joined is the sum of their sums |
| Domain.SumTotalsPermutation | src/domain/models.py:49 | any reordering of the products (same multiset) has the same sum of line totals |
| Domain.CalculateTotalOrderIndependent | src/domain/models.py:49 | total and rest do not depend on the order of the products |
| Domain.SumTotalsNonNegative | src/domain/models.py:15-17 | with non-negative prices and quantities the sum of the line totals is non-negative |
| Domain.ParseType | src/core/constants.py:4-6 | a type string denotes cash exactly when it is "cash", card exactly when it is "card", otherwise an `Other` carrying the same string; the result spells the input back |
| Domain.ParseTypeName | src/core/constants.py:4-6 | every canonical payment type is recovered from its string |
| Text.LJust | src/services/receipt_formatting.py:10 | `ljust` keeps the text as a prefix, pads up to the width and never truncates |
| Text.LJustPads | src/services/receipt_formatting.py:10 | everything `ljust` adds after the text is a space |
| Text.RJust | src/services/receipt_formatting.py:31 | `rjust` keeps the text as a suffix, pads on the left up to the width and never truncates |
| Text.RJustPads | src/services/receipt_formatting.py:31 | everything `rjust` adds before the text is a space |
| Text.Center | src/services/receipt_formatting.py:6-7 | `center` keeps the text whole, surrounds it with spaces to the width, the margins differ by at most one, and the left one is larger exactly when the margin and the width are both odd |
| Text.CenterExamples | src/services/receipt_formatting.py:6-7 | concrete centrings: even margins split evenly; an odd margin leans left for an odd width and right for an even one; text wider than the width is unchanged |
| Text.Words | src/services/receipt_formatting.py:13 | `split()` yields only non-empty, whitespace-free words; which words, in which order, is pinned by `WordsOfWord` and `WordsAtSpace` |
| Text.WordsOfWord | src/services/receipt_formatting.py:13 | a single whitespace-free word splits into itself |
| Text.WordsAtSpace | src/services/receipt_formatting.py:13 | splitting cuts at every whitespace character: the words of `a + c + b` for a whitespace `c` are the words of `a` followed by the words of `b`; with `WordsOfWord` and the empty string this determines `split()` |
| Text.WordsEmptyIff | src/services/receipt_formatting.py:13 | a name splits into no words exactly when it is empty or all whitespace |
| Text.WordsOfJoin | src/services/receipt_formatting.py:19-21 | splitting words joined by single spaces gives the same words back |
| Text.SplitOnJoin | src/services/receipt_formatting.py:61 | splitting a newline-join of newline-free lines on newlines gives the lines back |
| Money.Group | src/services/receipt_formatting.py:36-38 | the `,` thousands grouping of the whole part; its shape is stated by `GroupShape`, and removing the separators gives the digits back |
| Money.GroupShape | src/services/receipt_formatting.py:36-38 | counting from the right every fourth character is the separator and no other is: each separator is followed by exactly three digits, the leading group has one to three, and the length is the digits' plus one per full group |
| Money.Fixed2 | src/services/receipt_formatting.py:10 | `:.2f` (ungrouped) and `:,.2f` (grouped) on hundredths: sign, whole part, point, two zero-padded digits; its reading back is stated by `Fixed2RoundTrip` and `MoneyTextRoundTrip` |
| Money.MoneyText | src/services/receipt_formatting.py:36-38 | `f"{v:,.2f}".replace(",", " ")` on cents; its shape is stated by `MoneyTextShape` and its exact reading back by `MoneyTextRoundTrip` |
| Money.MoneyTextShape | src/services/receipt_formatting.py:36-38 | money prints as an optional minus, the whole part grouped with spaces (in threes, by `GroupShape`), a point, and two zero-padded digits |
| Money.MoneyTextRoundTrip | src/services/receipt_formatting.py:36-38 | the printed money text reads back as exactly the amount in cents |
| Money.Fixed2RoundTrip | src/services/receipt_formatting.py:10 | the ungrouped two-decimal text reads back as exactly the amount |
| Money.ValueOfZeroPad | src/services/receipt_formatting.py:58 | a zero-padded field reads back as its number |
| Money.MoneyTextExamples | src/services/receipt_formatting.py:36-38 | 1234.50 prints as "1 234.50", −0.05 as "-0.05", 38.25 and 11.75 as themselves |
| WordWrap.Wrap | src/services/receipt_formatting.py:14-27 | the wrapping loop over the name's words with budget `W // 2`; `WrapIsJoinedPack` and `PackIsTheGreedyPacking` state that its lines are the unique greedy packing, joined by spaces, and `WrapFacts` states its properties |
| WordWrap.PackIsGreedy | src/services/receipt_formatting.py:17-27 | the loop's packing keeps the words in order and unsplit; only the first line may be empty; a line of two or more words fits the budget; a non-empty first line paid the extra space for its first word; every break happened because the next word did not fit |
| WordWrap.GreedyPackingUnique | src/services/receipt_formatting.py:17-27 | two packings of the same words that both meet that description are equal |
| WordWrap.PackIsTheGreedyPacking | src/services/receipt_formatting.py:17-27 | the loop's packing is the only packing that meets the description |
| WordWrap.WrapIsJoinedPack | src/services/receipt_formatting.py:17-27 | the name lines are the loop's packing with each line's words joined by single spaces |
| WordWrap.GreedyFirstLine | src/services/receipt_formatting.py:17-24 | there are lines exactly when there are words, and the first line is empty exactly when the first word plus the charged space exceeds `W // 2` |
| WordWrap.WrapFacts | src/services/receipt_formatting.py:13-27 | the name lines re-split give the name's words in order; the first is empty exactly when the first word plus one exceeds the budget; later lines are non-empty; each line fits or holds a single word; each break was forced |
| WordWrap.WrapExamples | src/services/receipt_formatting.py:17-27 | at 16 columns "Chocolate milk bar" wraps after "milk", a 15-letter word fits, and a 16-letter first word opens with an empty line |
| Formatting.QuantityPriceLine | src/services/receipt_formatting.py:9-10 | the quantity/price line; its layout and the read-back of both numbers are stated by `QuantityPriceLineReads` |
| Formatting.QuantityPriceLineReads | src/services/receipt_formatting.py:9-10 | the quantity/price line is the quantity with two decimals, " x ", the price in money form, then spaces up to `W`; it is never cut and both numbers read back |
| Formatting.TwoColumns | src/services/receipt_formatting.py:35-38 | caption left, value right, each padded to `W // 2`; exactly `2 * (W // 2)` long when both fit, longer otherwise, never truncated |
| Formatting.TwoColumnsFit | src/services/receipt_formatting.py:35-38 | when both halves fit, caption and value are separated by spaces only |
| Formatting.TotalLine | src/services/receipt_formatting.py:35-38 | a caption and an amount in two columns of `W // 2`; stated by `TwoColumns`, `TwoColumnsFit` and `TotalLineReads` |
| Formatting.TotalLineReads | src/services/receipt_formatting.py:35-38 | a totals line starts with its caption and ends with the amount, which reads back exactly |
| Formatting.PaymentLabel | src/services/receipt_formatting.py:52 | the payment caption is "Картка" exactly for card and "Готівка" for cash and every other type |
| Formatting.NameLines | src/services/receipt_formatting.py:12-31 | a name without words fails, as the source's `product_lines[-1]` does; otherwise the wrapped lines, the last one laid out as a totals line with the product's line total |
| Formatting.TimestampText | src/services/receipt_formatting.py:58 | the creation time as `dd.mm.YYYY HH:MM`; its fields and their read-back are stated by `TimestampTextReads` |
| Formatting.TimestampTextReads | src/services/receipt_formatting.py:58 | the creation time prints as `dd.mm.YYYY HH:MM`: sixteen characters, separators in place, each field zero-padded and reading back as itself |
| Formatting.Header | src/services/receipt_formatting.py:40 | the merchant's name centred, then a `=` rule; where these land on the slip is stated by `RenderedSlip` |
| Formatting.FooterLines | src/services/receipt_formatting.py:48-59 | the closing lines in print order; where they land on the slip is stated by `RenderedSlip` |
| Formatting.ProductBlocks | src/services/receipt_formatting.py:42-46 | one block per product in order; its flattened layout is stated by `ProductSectionLayout` |
| Formatting.BlocksLayout | src/services/receipt_formatting.py:42-46 | `n` product blocks flatten to `3n − 1` entries: line, name lines, and a rule between consecutive blocks only |
| Formatting.ProductSectionLayout | src/services/receipt_formatting.py:42-46 | product `i` contributes its quantity/price line and its name lines in order; a `-` rule follows every product except the last |
| Formatting.RenderEntries | src/services/receipt_formatting.py:40-59 | rendering fails on a wordless name, or else on a missing creation time; otherwise the entries are the header, the product blocks and the footer; what that means on the printed slip is stated by `RenderedSlip` |
| Formatting.EntriesWellFormed | src/services/receipt_formatting.py:40-61 | for a receipt that renders (a creation time, a word in every product name), every entry spans at least one line and no line contains a newline |
| Formatting.Render | src/services/receipt_formatting.py:5-61 | `generate_receipt_text` succeeds exactly when every product name has a word and the receipt has a creation time; a wordless name is reported before a missing time; the text itself is stated by `RenderEntries` and `RenderIsJoinedLines` |
| Formatting.RenderIsJoinedLines | src/services/receipt_formatting.py:61 | for a receipt that renders, the text is the physical lines joined by single newlines with none after the last, and splitting it on newlines gives the lines back |
| Formatting.SlipLines | src/services/receipt_formatting.py:40-61 | the printed slip split at its newlines is the header's two lines, the product section's lines and the footer's seven lines |
| Formatting.RenderedSlip | src/services/receipt_formatting.py:40-61 | on the printed slip, line 0 is the merchant centred and line 1 a `=` rule; the product section follows; the last seven lines are a `=` rule, the total line of the receipt's total, the payment line with its caption and amount, the change line of the receipt's rest, a `=` rule, the creation time centred and the thanks centred; with `TotalLineReads` each of those amounts reads back from its line |
| Formatting.TotalsLinesExample | src/services/receipt_formatting.py:49-56 | on a 32-column slip the total line of 38.25 is "СУМА", 23 spaces, "38.25", and the change line of 11.75 is "Решта", 22 spaces, "11.75" |
| Mappers.ProductOf | src/domain/mappers.py:11 | a product is rebuilt with the stored name, price and quantity, and its line total is price × quantity whatever was stored |
| Mappers.ToEntity | src/domain/mappers.py:5-20 | id, public id, owner, creation time, total, rest, payment amount and type are copied; products are rebuilt in row order |
| Mappers.ToEntityIgnoresLineTotals | src/domain/mappers.py:10-13 | rows that differ only in their stored product totals map to the same entity |
| Repository.ToRecord | src/repositories/receipt_repository.py:18-33 | the saved row holds owner, total, rest, payment type and amount, and each product's name, price, quantity and line total in input order |
| Repository.SaveRoundTrip | src/repositories/receipt_repository.py:17-39 | mapping a just-built row back gives the saved entity, now carrying id, public id and creation time |
| Repository.NextId | src/db/models/receipt.py:14 | the fresh key is positive and larger than every key in the store |
| Repository.Save | src/repositories/receipt_repository.py:17-39 | saving fails exactly when the public id is taken; otherwise one row is appended and the existing rows are unchanged |
| Repository.SaveReturnsEntity | src/repositories/receipt_repository.py:17-39 | `save_receipt` returns the entity it was given with fresh id, public id and creation time |
| Repository.SaveKeepsWellFormed | src/db/models/receipt.py:14-15 | saving keeps keys and public ids unique across the store |
| Repository.FirstMatch | src/repositories/receipt_repository.py:45 | `.first()`: the earliest matching row, or none exactly when no row matches |
| Repository.GetById | src/repositories/receipt_repository.py:41-50 | a receipt is returned exactly when some row has both the id and the owner, and it carries that id and owner |
| Repository.GetByIdFinds | src/repositories/receipt_repository.py:41-50 | in a well-formed store every row is returned for its own id and owner |
| Repository.GetByIdOwnerScoped | src/repositories/receipt_repository.py:44 | asking for another owner's receipt returns none, as for a missing one |
| Repository.GetByPublicId | src/repositories/receipt_repository.py:80-87 | a receipt is returned exactly when the public id is in use, whoever owns it |
| Repository.GetByPublicIdFinds | src/repositories/receipt_repository.py:80-87 | in a well-formed store every row is returned for its public id |
| Repository.Conditions | src/repositories/receipt_repository.py:61-70 | the chain of `.filter` conditions, each added only when its argument is truthy; what the chain selects is stated by `ConditionsSelect` |
| Repository.ConditionsSelect | src/repositories/receipt_repository.py:61-70 | the chained filters accept a row exactly when: it is the user's; it is not older than `created_after` (inclusive); its total reaches a non-zero `minimum_total` (inclusive); and its type equals a requested type |
| Repository.Filter | src/repositories/receipt_repository.py:61-70 | the filtered rows are exactly the store's rows all conditions accept; their order is pinned by `FilterSingle` and `FilterConcat` |
| Repository.FilterSingle | src/repositories/receipt_repository.py:61-70 | a single row is kept exactly when every condition accepts it |
| Repository.FilterConcat | src/repositories/receipt_repository.py:61-70 | filtering two stretches of the store one after the other gives the filtered first stretch followed by the filtered second, so the selected rows keep store order |
| Repository.FilterCounts | src/repositories/receipt_repository.py:72 | the count is the number of rows the query selects |
| Repository.Paginate | src/repositories/receipt_repository.py:74 | the page is the slice `[offset, offset + limit)`, of length `min(limit, max(0, count − offset))` |
| Repository.PagesTile | src/repositories/receipt_repository.py:74 | two adjacent pages concatenated are the page spanning both |
| Repository.List | src/repositories/receipt_repository.py:52-78 | the count is the number of selected rows, whatever the limit and offset; the page has `min(limit, max(0, count − offset))` receipts, and its `i`-th receipt is the entity of the `(offset + i)`-th selected row in store order, so each is a stored row meeting every supplied condition |
| Repository.ListIsPage | src/repositories/receipt_repository.py:72-76 | the listed page is the `[offset, offset + limit)` slice of the selected rows, mapped to entities |
| Repository.PagesCoverSelection | src/repositories/receipt_repository.py:61-76 | for any page size, the pages at offsets 0, limit, 2·limit, … reaching the count together list every selected row exactly once, in store order |
| Repository.ListIsComplete | src/repositories/receipt_repository.py:61-78 | every selected row appears in a page from offset 0 large enough to hold the store |
| Repository.ListZeroMinimumIsNoFilter | src/repositories/receipt_repository.py:66-67 | a minimum total of 0 lists exactly what no minimum lists |
| Schemas.ValidateProduct | src/schemas/receipt.py:8-11 | a product is accepted exactly when name, price and quantity are present with price ≥ 0 and quantity > 0 |
| Schemas.ValidatePayment | src/schemas/receipt.py:14-16 | a payment is accepted exactly when amount and type are present and amount > 0; the type may be any string |
| Schemas.ValidateProducts | src/schemas/receipt.py:20 | a product list is rejected exactly when one of its entries is; otherwise each entry validates in place |
| Schemas.Validate | src/schemas/receipt.py:19-21 | whatever validation accepts meets the constraints |
| Schemas.ValidateFields | src/schemas/receipt.py:8-21 | a complete body is accepted exactly when its data meet the constraints, and then comes out unchanged |
| Schemas.ValidateComplete | src/schemas/receipt.py:8-21 | whatever is accepted came from the complete body carrying exactly the result |
| Schemas.MissingAmountRejected | src/schemas/receipt.py:15 | a payment without an amount is rejected |
| Schemas.EmptyProductsAccepted | src/schemas/receipt.py:20 | a body with no products and a valid payment is accepted |
| Service.Build | src/services/receipt.py:20-25 | one product per input entry in order, one payment with the given amount and type string, zero total and rest, no identifiers or creation time |
| Service.CreateReceipt | src/services/receipt.py:19-31 | creation fails only on a taken public id; otherwise it appends one row and returns the saved receipt: totals obey the rules, and it carries the fresh id, the public id, the creation time, the owner, and the input products and payment |
| Service.CreateKeepsConsistent | src/services/receipt.py:25-29 | if every stored row obeyed the total/rest rules, every row still does after a creation |
| Service.CreatedIsFetchable | src/services/receipt.py:19-31 | after a creation the store stays well formed, the creator fetches the receipt by its id, and anyone fetches it by its public id |
| Service.ValidInputHasNonNegativeTotal | src/services/receipt.py:19-31 | input that passed validation yields a non-negative total |
| Service.CashExample | tests/test_receipts.py:5-26 | 10.50 × 2 and 5.75 × 3 paid with 50 cash give total 38.25 and change 11.75 |
| Service.CardExample | src/domain/models.py:50-54 | the same purchase paid by card gives total 38.25 and change 0, whatever the amount |
| Service.GetReceiptById | src/services/receipt.py:33-34 | returns the repository's answer unchanged, so a receipt exactly when the id and owner match a row |
| Service.ListReceipts | src/services/receipt.py:36-52 | returns the repository's page and count unchanged |
| Service.ViewReceiptByPublicId | src/services/receipt.py:54-55 | returns the repository's answer unchanged, so a receipt exactly when the public id is in use |

## Left out

- Floating point: money, prices and quantities are integer cents and integers.
  - Python's binary floats are not modelled, nor `:.2f` rounding, nor the order-dependent float summation.
  - A float `minimum_total` below one cent is truthy in Python but has no counterpart here; only an exact 0 is falsy.
- Time zones and the `datetime` type: a timestamp is year, month, day, hour, minute and second as naturals.
  - The seconds are kept for comparison but not printed.
- Formatting.TimestampTextReads: requires every field to fit its printed width. `TimestampText` pads a year below 1000 to four digits. The platform's `strftime` may print such a year unpadded; that is not modelled.
- Render width: `W` is a natural number. A negative `line_length`, which the HTTP layer would pass through, is not modelled.
- The payment-type column is an enumeration of cash and card. The model stores any type, including `Other`. What the database driver does with another string is not part of this model.
- The product quantity column is a float in the database. The model keeps it an integer.
- Request parsing: pydantic's coercions, such as numeric strings or integral floats for the quantity, are not modelled. Validation starts from typed, possibly missing fields.
- Authentication, the HTTP routes, the session and commit mechanics, `uuid4` generation, and the `to_dict` response shapes are left out.
  - The routes map a missing receipt to 404 and default `line_length` to 32; the slip example uses 32.
  - The only relevant leftover of the session and `uuid4` is the unique constraint, which `Save` keeps.
- Repository.NextId: a database may hand out keys other than one past the largest, for example never reusing keys after deletions. The model only needs the key to be fresh, and nothing is deleted.
- Queries have no `ORDER BY`. The model returns rows in storage order.
- The limit and offset are naturals. The HTTP layer enforces limit ≥ 1 and offset ≥ 0; negative values reaching the SQL `LIMIT` are not modelled.
- Concurrency between requests is not modelled. Every operation is a pure function of the store.
