# Effective software testing exercises — a verified Dafny model

The repository is a set of independent Rust exercises from a course on
software testing. This project models the ones whose behaviour is a pure
computation, and proves the properties their doc comments and tests promise:

- **Pricing.** The rule-based cart price engine
  (`testing_larger_components_shopping_cart`) has a delivery-price rule, an
  electronics surcharge rule and a calculator that sums a list of rules. The
  integer-cents cart (`shopping_cart`) sums `price_in_cents * quantity`.
  Money is integer cents everywhere: 5.0 is 500, 12.5 is 1250, 20.0 is 2000
  and 7.50 is 750. The `PriceRule` trait becomes the datatype
  `Rule = DeliveryPrice | ExtraChargeForElectronics | Const(cents)`, where
  `Const` stands for the mock rules of the tests.
- **Invoice filtering.** `InvoiceFilter::low_value_invoices` keeps the
  invoices worth less than 100. `SapInvoiceSender::send_low_valued_invoices`
  forwards them to SAP. The invoice repository is the sequence its `all`
  method returns. The SAP calls are returned as a trace of sent invoices.
- **Katas.** Each kata has an imperative method and a recursive reference
  function or characterising predicate that it is proved against. The method
  follows the Rust loop, except for word counting: there the Rust loop over
  the `split_terminator` pieces is the reference function `CountWordsSpec`,
  and the method `CountWords` is a one-pass scan for word ends proved equal
  to it. The katas are:
  - digit-list addition
  - Roman-numeral parsing
  - substrings between two delimiters
  - counting words that end in `s` or `r`
  - first-index search
  - descending deduplication
  - left padding
  - planning-poker extremes

There is one Dafny module per exercise, in a file named after it; the
module for `index_of` is called `Search`. Two files hold shared helpers:
`wrappers.dfy` has the `Option` and `Result` datatypes, and `seqs.dfy`
(module `Seqs`) has the multiset facts about removing one element of a
sequence that the order-independence proofs of the two carts use. The
category the source spells `Eletronic` is `Electronic` here.

Where a Rust function panics, the model has a precondition that excludes
exactly the inputs that reach the panic. `roman_to_i64` hits `unreachable!()`
on any symbol outside I, V, X, L, C, D, M. `add_two_numbers` hits it on a
value outside 0–9, but only once both lists are non-empty: with an empty
operand it returns the empty list before it reads a digit, whatever the other
list holds. `substrings_between` with equal delimiters is left out entirely
(see below). Where a Rust function returns an error or an empty value, the
model returns it too.

## Model

| member | source | states |
|---|---|---|
| PriceRules.NewCart | testing_larger_components_shopping_cart/src/main.rs:22-24 | A new cart has no item entries. |
| PriceRules.NumberOfItems | testing_larger_components_shopping_cart/src/main.rs:26-28 | Reference definition of `number_of_items`: the number of item entries, not the summed quantities. `NewCart`, `Add`, `DeliveryBands` and `DeliveryDependsOnlyOnCount` characterise it. |
| PriceRules.Add | testing_larger_components_shopping_cart/src/main.rs:30-32 | `add` appends the item at the end, leaves the earlier items as they were, and raises `number_of_items` by one. |
| PriceRules.AnyElectronic | testing_larger_components_shopping_cart/src/main.rs:85-88 | The `any` scan is true exactly when some item has the electronic category. |
| PriceRules.DeliveryCents | testing_larger_components_shopping_cart/src/main.rs:67-76 | Reference definition of the delivery charge for a number of entries. `DeliveryBands`, `DeliveryBoundaries` and `DeliveryMonotone` characterise it. |
| PriceRules.PriceToAggregate | testing_larger_components_shopping_cart/src/main.rs:60-93 | Reference definition of `price_to_aggregate` for the delivery rule, the electronics rule and a mock rule. `DeliveryBands`, `DeliveryDependsOnlyOnCount` and `ElectronicsSurcharge` characterise it. |
| PriceRules.Calculate | testing_larger_components_shopping_cart/src/main.rs:102-108 | Reference definition of `calculate`: the rules' amounts summed in list order. `CalculateAppend`, `CalculateOrderFree`, `ZeroRuleIsIdentity` and `MockRulesExample` characterise it. |
| PriceRules.DeliveryBands | testing_larger_components_shopping_cart/src/main.rs:67-76 | Delivery is 0 exactly for 0 entries, 5.00 exactly for 1–3, 12.50 exactly for 4–10 and 20.00 exactly for more than 10. |
| PriceRules.DeliveryBoundaries | testing_larger_components_shopping_cart/src/main.rs:128-151 | The tested boundaries 0, 1, 3, 4, 10 and 11 entries give 0, 5.00, 5.00, 12.50, 12.50 and 20.00. |
| PriceRules.DeliveryDependsOnlyOnCount | testing_larger_components_shopping_cart/src/main.rs:67-73 | Two carts with equally many entries pay the same delivery, whatever their quantities, prices and categories. |
| PriceRules.DeliveryMonotone | testing_larger_components_shopping_cart/src/main.rs:68-73 | Adding an item never lowers the delivery price. |
| PriceRules.ElectronicsSurcharge | testing_larger_components_shopping_cart/src/main.rs:82-93 | The surcharge is 7.50 if and only if some item is electronic, and 0 if and only if all items are normal. |
| PriceRules.EmptyCartPaysNothing | testing_larger_components_shopping_cart/src/main.rs:158-165 | An empty cart pays 0 delivery, 0 surcharge and 0 in total under both rules. |
| PriceRules.CalculateAppend | testing_larger_components_shopping_cart/src/main.rs:102-108 | The total over two concatenated rule lists is the sum of their totals. |
| PriceRules.CalculateOrderFree | testing_larger_components_shopping_cart/src/main.rs:97-108 | Any reordering of the configured rules gives the same total. |
| PriceRules.ZeroRuleIsIdentity | testing_larger_components_shopping_cart/src/main.rs:102-108 | Adding a rule that answers 0, in front or at the back, leaves the total unchanged. |
| PriceRules.MockRulesExample | testing_larger_components_shopping_cart/src/main.rs:217-254 | Rules answering 1.00, 0.00 and 2.00 total 3.00. |
| PriceRules.MixedCartExample | testing_larger_components_shopping_cart/src/main.rs:5-9 | Five normal items and one electronic item cost 12.50 delivery plus 7.50 surcharge, 20.00 in all. |
| ShoppingCart.New | shopping_cart/src/main.rs:9-11 | A new cart has no items. |
| ShoppingCart.Add | shopping_cart/src/main.rs:13-15 | `add` appends exactly one item and leaves the existing items unchanged. |
| ShoppingCart.Sum | shopping_cart/src/main.rs:18-22 | Reference definition of the `map`/`sum` fold over the items' line totals. `AddRaisesTotal` and `TotalIgnoresOrder` characterise it. |
| ShoppingCart.TotalPriceInCents | shopping_cart/src/main.rs:17-23 | Reference definition of `total_price_in_cents`. `NewCartIsFree`, `AddRaisesTotal`, `TotalIgnoresOrder` and `Examples` characterise it. |
| ShoppingCart.NewCartIsFree | shopping_cart/src/main.rs:41-45 | A new cart's total is 0. |
| ShoppingCart.AddRaisesTotal | shopping_cart/src/main.rs:13-23 | After `add`, the total is the old total plus the item's price times its quantity. |
| ShoppingCart.TotalIgnoresOrder | shopping_cart/src/main.rs:17-23 | Carts holding the same items in any order have the same total. |
| ShoppingCart.Examples | shopping_cart/src/main.rs:47-111 | 1000×1 gives 1000, 1000×2 gives 2000, 1000×1 twice gives 2000, and 1000×3 plus 1000×2 gives 5000. |
| InvoiceFilter.LowValueInvoices | stubbing_invoices/src/main.rs:13-20 | Every returned invoice is worth less than 100, and every repository invoice under 100 is returned. |
| InvoiceFilter.FilterKeepsCounts | stubbing_invoices/src/main.rs:16-19 | Each invoice under 100 occurs in the result as often as in the repository; no other invoice occurs at all. |
| InvoiceFilter.FilterKeepsOrder | stubbing_invoices/src/main.rs:16-19 | The result is a subsequence of the repository, so the repository's order is kept. |
| InvoiceFilter.FilterIdempotent | stubbing_invoices/src/main.rs:16-19 | Filtering an already filtered list changes nothing. |
| InvoiceFilter.FilterAppend | stubbing_invoices/src/main.rs:16-19 | Filtering a concatenation gives the concatenation of the two filtered parts. |
| InvoiceFilter.EmptyRepository | stubbing_invoices/src/main.rs:43-52 | An empty repository gives an empty result. |
| InvoiceFilter.Boundary | stubbing_invoices/src/main.rs:54-84 | An invoice of 99 is kept and an invoice of 100 is dropped. |
| InvoiceFilter.MixedExample | stubbing_invoices/src/main.rs:86-115 | Invoices of 20, 99 and 100 give exactly the 20 and the 99, in that order. |
| SapSender.SendLowValuedInvoices | stubbing_external_service/src/main.rs:46-50 | The SAP send trace equals the filter's output: one send per invoice, in the same order. |
| SapSender.SendsExactlyLowValue | stubbing_external_service/src/main.rs:23-50 | No invoice worth 100 or more is ever sent, and every repository invoice under 100 is sent. |
| SapSender.SendsBothExample | stubbing_external_service/src/main.rs:68-99 | Running the sender on Mauricio (20) and Steve (99) sends exactly those two, Mauricio first. |
| PlanningPoker.FindExtremes | planning_poker/src/main.rs:17-37 | Fewer than two estimates gives `NotEnoughPlayers` carrying the length. Otherwise both indices are valid. The lowest is the first index holding the minimum. The highest holds the maximum, with ties going to index 1, then index 0, then indices 2, 3, … in order. |
| PlanningPoker.ExtremesDetermined | planning_poker/src/main.rs:24-34 | The contract leaves exactly one answer for each input. |
| PlanningPoker.AllEqualExample | planning_poker/src/main.rs:65-86 | Three equal estimates give lowest index 0 and highest index 1. |
| PlanningPoker.DistinctExamples | planning_poker/src/main.rs:88-115 | [4, 2] gives (1, 0), and [4, 2, 1] gives (2, 0). |
| AddTwoNumbers.AddTwoNumbers | add_two_numbers/src/main.rs:3-36 | An empty operand gives an empty list. Otherwise the result is a list of digits 0–9 whose value is the sum of the operands' values. Its length is that of the longer operand, plus one exactly when the sum needs the extra digit (the final carry). |
| AddTwoNumbers.SumCommutes | add_two_numbers/src/main.rs:74-78 | Swapping the operands gives the same result. |
| AddTwoNumbers.Examples | add_two_numbers/src/main.rs:55-78 | 9 + 2 gives [1, 1] and 22 + 9 gives [3, 1]. |
| RomanNumerals.SymbolValue | tdd_roman_numerals/src/main.rs:28-36 | Each of the seven symbols has one of the seven table values. `SingleSymbols` gives the value of each symbol. |
| RomanNumerals.Value | tdd_roman_numerals/src/main.rs:23-52 | Reference definition of a numeral's value: the sum over its symbols, each subtracted exactly when smaller than its right neighbour. `RomanToInt`, `NoSubtractionIsPlainSum` and the worked examples characterise it. |
| RomanNumerals.RomanToInt | tdd_roman_numerals/src/main.rs:23-52 | The right-to-left loop returns the sum of the symbol values, each symbol subtracted exactly when it is smaller than its right neighbour. |
| RomanNumerals.NoSubtractionIsPlainSum | tdd_roman_numerals/src/main.rs:42-46 | If no symbol is smaller than its right neighbour, the value is the plain sum of the symbols. |
| RomanNumerals.EmptyIsZero | tdd_roman_numerals/src/main.rs:24-25 | The empty numeral is 0. |
| RomanNumerals.SingleSymbols | tdd_roman_numerals/src/main.rs:65-71 | I, V, X, L, C, D and M are 1, 5, 10, 50, 100, 500 and 1000. |
| RomanNumerals.AdditiveExamples | tdd_roman_numerals/src/main.rs:73-75 | "III" is 3 and "XVIII" is 18. |
| RomanNumerals.PlainExample | tdd_roman_numerals/src/main.rs:77 | "DCCLXVI" is the plain sum 766. |
| RomanNumerals.SubtractiveFour | tdd_roman_numerals/src/main.rs:78-79 | "IV" is 4 and "XIV" is 14. |
| RomanNumerals.SubtractiveForty | tdd_roman_numerals/src/main.rs:80-81 | "XL" is 40 and "XLI" is 41. |
| RomanNumerals.SubtractiveTwice | tdd_roman_numerals/src/main.rs:82 | "CCXCIV" is 294: both the X before C and the I before V are subtracted. |
| SubstringsBetween.Between | substrings_between/src/main.rs:1-29 | Reference definition of `substrings_between`. `BetweenIsScan` characterises it as a left-to-right scan, and `SubstringsBetween` proves the loop equal to it. |
| SubstringsBetween.FindFrom | substrings_between/src/main.rs:11-15 | A position the search answers is in range, at or after the start, and holds the character. |
| SubstringsBetween.FindFromIsFirst | substrings_between/src/main.rs:11-15 | No earlier position from the start holds the character, and the search answers nothing exactly when no position from the start holds it. |
| SubstringsBetween.NextMatch | substrings_between/src/main.rs:11-21 | A match from a position is the start that `FindFrom` finds from there and the end it finds from that start, with position ≤ start < end < length. There is no match exactly when either search answers nothing. |
| SubstringsBetween.BetweenFrom | substrings_between/src/main.rs:8-26 | Reference definition of the pieces from a resume point on. `BetweenIsScan`, `NoPieceContainsEnd` and the worked examples characterise it. |
| SubstringsBetween.SubstringsBetween | substrings_between/src/main.rs:1-29 | The scanning loop returns exactly the pieces of the recursive definition. |
| SubstringsBetween.BetweenIsScan | substrings_between/src/main.rs:8-26 | Each piece is the text strictly between a start and the first end after it. That start is the first one after the previous match's end, so pieces do not overlap and come out left to right. After the last piece, no start is followed by an end. |
| SubstringsBetween.NoPieceContainsEnd | substrings_between/src/main.rs:15-19 | No piece contains the end delimiter. |
| SubstringsBetween.EmptyGivesNothing | substrings_between/src/main.rs:39-42 | The empty text gives no pieces. |
| SubstringsBetween.ExampleOneMatch | substrings_between/src/main.rs:46 | "a1b" gives ["1"]. |
| SubstringsBetween.ExampleTrailingStartDropped | substrings_between/src/main.rs:48 | "c1ba2ba3c" gives ["2"]: the trailing "a3c" has no end. |
| SubstringsBetween.ExampleThreeMatches | substrings_between/src/main.rs:53-56 | "a1ba2ba3b" gives ["1", "2", "3"]. |
| SubstringsBetween.ExampleTwoOfThree | substrings_between/src/main.rs:58 | "a1ba2ba3c" gives ["1", "2"]. |
| SubstringsBetween.ExampleLeadingTextSkipped | substrings_between/src/main.rs:60 | "c1ba2ba3b" gives ["2", "3"]. |
| CountWords.SplitAll | count_words/src/main.rs:7 | Reference definition of splitting on every non-letter: at least one piece, and the first piece is empty exactly when the text is empty or starts with a non-letter. `PiecesAreLetters` shows the pieces are letters only. |
| CountWords.SplitTerminator | count_words/src/main.rs:7 | Reference definition of `split_terminator`: the split with a trailing empty piece dropped. `TerminatorKeepsCount` shows the drop does not change the count. |
| CountWords.CountWordsSpec | count_words/src/main.rs:4-14 | Reference definition of `count_words`: the split pieces ending in 's' or 'r'. `CountIsWordEnds`, `CountJoin` and the worked examples characterise it. |
| CountWords.CountWords | count_words/src/main.rs:4-14 | The character scan counts exactly the `split_terminator` pieces that end in 's' or 'r'. |
| CountWords.CountIsWordEnds | count_words/src/main.rs:1-10 | The count equals the number of positions holding an 's' or 'r' that is the last letter of its maximal letter run. |
| CountWords.PiecesAreLetters | count_words/src/main.rs:7 | Every piece of the split consists of letters only. |
| CountWords.TerminatorKeepsCount | count_words/src/main.rs:7-8 | Dropping the trailing empty piece does not change the count. Empty pieces are never counted. |
| CountWords.CountJoin | count_words/src/main.rs:1-10 | Cutting a sentence just before a non-letter splits the count into the counts of the two parts: no word straddles the cut. |
| CountWords.EmptyCountsZero | count_words/src/main.rs:26 | "" counts 0. |
| CountWords.InnerLettersDoNotCount | count_words/src/main.rs:28 | "helasarlo" counts 0: an 's' or 'r' inside a word does not count. |
| CountWords.LeadingLettersDoNotCount | count_words/src/main.rs:31 | "ra sa" counts 0: words that start with 'r' or 's' do not count. |
| CountWords.MatchExampleS | count_words/src/main.rs:40 | "saasaa xxxs aaaaa zzzzs" counts 2. |
| CountWords.MatchExampleR | count_words/src/main.rs:49 | "saasaa xxxr aaaaa" counts 1. |
| Search.IndexOf | index_of/src/main.rs:6-17 | `Some(i)` means i is in range, the predicate holds at i, and it fails at every earlier index. `None` holds exactly when it fails everywhere. |
| Search.IndexOfLoop | index_of/src/main.rs:10-16 | The early-return loop agrees with `IndexOf`. |
| Search.EmptyGivesNone | index_of/src/main.rs:28-31 | An empty slice gives `None`. |
| Search.NeverTrueGivesNone | index_of/src/main.rs:35-37 | An always-false predicate gives `None` for every input. |
| Search.SingleMarkIsFound | index_of/src/main.rs:39-46 | A single element equal to 200, at position k, is found at k. |
| Unique.Insert | unique/src/main.rs:6-8 | Inserting into the ascending listing of the set keeps it strictly ascending and adds exactly the new value. |
| Unique.Unique | unique/src/main.rs:3-18 | The output is strictly descending and so has no duplicates. It holds exactly the values of the input and is no longer than the input. |
| Unique.DescendingDetermined | unique/src/main.rs:13-15 | A strictly descending sequence is determined by its set of values, so `unique`'s contract fixes its output. |
| Unique.UniqueIdempotent | unique/src/main.rs:3-18 | Applying `unique` to its own output gives that output back. |
| Unique.EmptyGivesEmpty | unique/src/main.rs:31-34 | The empty input gives the empty output. |
| LeftPad.Repeat | left_pad/src/main.rs:10-12 | k copies of the padding have k times its length. |
| LeftPad.Copies | left_pad/src/main.rs:4-12 | Reference definition of how many copies the loop writes. `CopiesAreMaximal` shows it is the largest count that fits. |
| LeftPad.Padded | left_pad/src/main.rs:3-17 | Reference definition of `left_pad`'s result. `LeftPad`, `EndsWithInput`, `EmptyPaddingIsIdentity` and `ShortTargetIsIdentity` characterise it. |
| LeftPad.LeftPad | left_pad/src/main.rs:3-17 | The loop returns k copies of the padding followed by `s`, where k is the closed-form count `Copies`. An empty padding returns `s` at once. |
| LeftPad.EndsWithInput | left_pad/src/main.rs:10-14 | The result ends with `s`, preceded only by whole copies of the padding. |
| LeftPad.CopiesAreMaximal | left_pad/src/main.rs:10 | With non-empty padding, the copies never overshoot `desired` when there is at least one, and one more copy would overshoot. |
| LeftPad.EmptyPaddingIsIdentity | left_pad/src/main.rs:4-6 | An empty padding returns `s` unchanged. |
| LeftPad.ShortTargetIsIdentity | left_pad/src/main.rs:34-38 | A `desired` size below the length of `s` returns `s` unchanged. |
| LeftPad.Examples | left_pad/src/main.rs:41-46 | ("abc", 4, "-") gives "-abc", ("abc", 5, "-") gives "--abc", and ("abc", 8, "hello") gives "helloabc". |

## Left out

- `hexagonal_architecture` (the paid-cart batch: repository, delivery centre, customer notifier, SAP client): the cart is an empty struct, `mask_as_ready_for_delivery` does nothing and `get_carts_paid_today` is `todo!()`. What is left is the call order against mocks, with no transformation to state.
- `date_and_time_wrappers`: reads the wall clock and computes money in `f64`.
- `passing_grade` and `tax_calculator`: `f32`/`f64` arithmetic; the tax calculator returns its input.
- The mocking machinery: `mockall` expectations (`.with(eq(cart))`, call counts), `typed_builder` builders and the `main` functions that print a greeting. Mock rules become `Rule.Const` and mock repositories become input sequences.
- `BigDecimal`: replaced by integer cents, which is exact for every amount the source uses.
- The item-price line of the price-engine doc comment (unit price times quantity): no rule in the source implements it.
- Integer widths: the `u64` cart total, the `i64` numeral value, the `i32` digits and invoice values and `usize` counts are unbounded integers; overflow is not modelled.
- Unicode: letters are the ASCII letters where `count_words` calls `char::is_alphabetic`. `left_pad` and `substrings_between` are modelled on ASCII text, where Rust byte lengths and offsets equal character counts. On multi-byte text `substrings_between` compares a byte offset with a character count; that mix is outside this model.
- `substrings_between` with multi-character delimiters: only single delimiter characters are modelled.
- `substrings_between` with equal delimiters: the model requires distinct ones. With equal delimiters the Rust slice runs backwards and panics once the delimiter is found in the text. A text without the delimiter gives no pieces (the `None => break` at substrings_between/src/main.rs:11-13), and the model does not cover that case either.
- `index_of` takes an `FnMut` predicate that could keep state between calls; the model takes a pure predicate.
- `find_extremes` returns references to the estimates; the model returns their indices into the slice.
- The `items()` and `category()` accessors of the price engine: plain field reads.
- The duplicate filter in `stubbing_external_service`: it is the same code as in `stubbing_invoices`, so one definition (`InvoiceFilter.LowValueInvoices`) covers both. Its tests at stubbing_external_service/src/main.rs:101-173 are the ones `InvoiceFilter.EmptyRepository`, `InvoiceFilter.Boundary` and `InvoiceFilter.MixedExample` state.
