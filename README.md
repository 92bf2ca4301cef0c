# TripleS storefront: a verified model of its page logic

TripleS is a React storefront for a restaurant chain. This project models its
client-side logic in Dafny. The eight core sources are the shift report, the
home page's product grid, the users hook, the product page, the orders page,
the sign-in page, the branch administration page and the user administration
page. It leaves out rendering, HTTP and timers, and keeps the decisions,
updates and text transformations the pages make themselves.

One module per source file:

- `common.dfy` (`Common`) — shared string helpers with ASCII semantics: trim, lower-case, `includes`, first-occurrence `replace` and `join`. It also holds an order-preserving `Filter` with its subsequence lemmas.
- `pagination.dfy` (`Pagination`) — `getPaginationNumbers` and the previous/next guards. The shift report, the home page and the users hook hold identical copies of them.
- `arabic_format.dfy` (`ArabicFormat`) — digit substitution to Arabic-Indic numerals, `formatCurrencyArabic` and `formatNumberArabic`.
- `catalog.dfy` (`Catalog`) — the home page's category filter, its availability predicates, the search and offers filter, and the category toggle and delete updates.
- `required_options.dfy` (`RequiredOptions`) — the home page's parser for the "missing required options" error and the formatter that lists them in Arabic.
- `users.dfy` (`Users`) — the users hook:
  - the e-mail filter and the "signed-in account first" sort;
  - the role lists;
  - the assign-role and toggle-status updates.
- `product_details.dfy` (`ProductDetails`) — the product page:
  - quantity steps and add-on selection;
  - the add-to-cart gate;
  - the discounted price and the total price.
- `orders.dfy` (`Orders`) — the orders page:
  - price sums over order lines and line normalisation;
  - status labels;
  - the list request parameters and the cancel update.
- `auth.dfy` (`Auth`) — password rules, the resend countdown, the Google error text and the token taken from the URL hash.
- `branches.dfy` (`Branches`) — the branch error alert, the branch search, the edit-form defaults and the submit normalisation.
- `admin_users.dfy` (`AdminUsers`) — the user-form completeness check, the roles normalisation and the role badge colours.

Conventions:

- JavaScript numbers are Dafny `real`s and counts are `int`s.
- `null`/`undefined` fields are `Option`s.
- A React state update is a function from the old state to the new one.
- Code that works with loops is a `method` proved equal to a specification function, and the properties are lemmas about that function.

## Model

| member | source | states |
|---|---|---|
| Pagination.PaginationNumbers | src/pages/OrderShiftsReport.jsx:426-451 | the loop-and-push construction of the page selector yields exactly the selector specified by `Selector` |
| Pagination.SelectorEnds | src/pages/Home.jsx:1077-1101 | the selector starts with page 1, ends with the last page when there is more than one, and is just `[1]` for a single page |
| Pagination.SelectorLength | src/hooks/useUsers.js:231-256 | the selector never has more than nine entries (1, gap, five pages, gap, last) |
| Pagination.SelectorLayout | src/pages/OrderShiftsReport.jsx:426-451 | exact layout: 1, an optional leading "...", the window max(2,c-2)..min(t-1,c+2), an optional trailing "...", then t when t > 1 |
| Pagination.WindowHoldsCurrent | src/pages/OrderShiftsReport.jsx:430-436 | for an inner current page, the window contains it |
| Pagination.SelectorPagesOrdered | src/pages/OrderShiftsReport.jsx:426-451 | every page number lies in 1..t, page numbers strictly increase, and the current page is shown |
| Pagination.SelectorMarkers | src/pages/OrderShiftsReport.jsx:440-445 | a leading "..." appears iff c-2 > 2 and a trailing one iff c+2 < t-1 |
| Pagination.SelectorGaps | src/pages/OrderShiftsReport.jsx:426-451 | every "..." sits between two pages that skip at least one page, and adjacent pages are consecutive |
| Pagination.GuardsStayInRange | src/pages/OrderShiftsReport.jsx:414-424 | previous/next move by one and stay in 1..t; previous does nothing exactly on page 1 and next exactly on the last page |
| ArabicFormat.ToArabicNumbersOrZero | src/pages/OrderShiftsReport.jsx:139-146 | null or undefined gives "٠" |
| ArabicFormat.ToArabicNumbersAt | src/pages/ProductDetails.jsx:285-288 | substitution keeps the length, maps each ASCII digit d to U+0660+d and leaves every other character alone |
| ArabicFormat.ToArabicNumbersIdempotent | src/pages/OrderShiftsReport.jsx:139-146 | the result has no ASCII digit left, so substituting again changes nothing |
| ArabicFormat.NoDigitsUnchanged | src/pages/OrderShiftsReport.jsx:143-145 | a string without ASCII digits is returned unchanged |
| ArabicFormat.FromArabicInverts | src/pages/OrderShiftsReport.jsx:139-146 | mapping the Arabic-Indic digits back recovers the input when it had none of its own |
| ArabicFormat.NatToStringRoundTrip | src/pages/OrderShiftsReport.jsx:143-144 | the decimal text of a natural number is all digits, has no leading zero, and parses back to the number |
| ArabicFormat.SplitToFixed | src/pages/OrderShiftsReport.jsx:153-154 | splitting toFixed(2) at "." yields exactly the whole part and the two-digit fraction |
| ArabicFormat.CurrencyFallbackCases | src/pages/OrderShiftsReport.jsx:149-151 | null, undefined and NaN all give the fixed "٠٫٠٠ ج.م" |
| ArabicFormat.InfinityFormats | src/pages/OrderShiftsReport.jsx:139-171 | Infinity and -Infinity pass the `isNaN` guard: the currency text is "Infinity" with its sign, then ".٠" because `decimalPart` is undefined and `toArabicNumbers(undefined)` is "٠", then " ج.م"; the integer text is "Infinity" with its sign; the corrected formatters agree |
| ArabicFormat.FormatCurrencyParts | src/pages/OrderShiftsReport.jsx:148-160 | for a number the text is Arabic whole part, ".", Arabic fraction and the pound suffix |
| ArabicFormat.FormatCurrencyFinite | src/pages/OrderShiftsReport.jsx:148-160 | read back, the digits are the amount in hundredths rounded as toFixed(2) does; two fraction digits; no thousands separator is ever inserted |
| ArabicFormat.CurrencySeparatorQuirk | src/pages/OrderShiftsReport.jsx:148-160 | an amount of 0 prints "٠.٠٠ ج.م" with an ASCII point, unlike the "٫" of the missing-amount text |
| ArabicFormat.CurrencyExample | src/pages/OrderShiftsReport.jsx:148-160 | 350.75 prints as "٣٥٠.٧٥ ج.م" |
| ArabicFormat.FormatNumberMeaning | src/pages/OrderShiftsReport.jsx:162-171 | "٠" for null, undefined and NaN; for a finite number the Arabic-Indic digits of Math.round(number) with its sign, which read back to that integer |
| ArabicFormat.NumberExample | src/pages/OrderShiftsReport.jsx:162-171 | 1234.6 prints as "١٢٣٥", without a separator |
| ArabicFormat.GroupThousandsInert | src/pages/OrderShiftsReport.jsx:157 | the grouping regular expression changes nothing in a string without ASCII digits |
| ArabicFormat.GroupThousandsOnAsciiDigits | src/pages/OrderShiftsReport.jsx:157 | on ASCII digits the same expression does insert "٬" ("1234" becomes "1٬234") |
| ArabicFormat.GroupedCurrencyOnlyAddsSeparators | src/pages/OrderShiftsReport.jsx:148-160 | grouping before substitution differs from the formatter as written only by inserted separators |
| ArabicFormat.GroupedNumberOnlyAddsSeparators | src/pages/OrderShiftsReport.jsx:162-171 | same for the integer formatter |
| ArabicFormat.DigitGroupPoints | src/pages/OrderShiftsReport.jsx:157 | on a string of ASCII digits the pattern matches before position i exactly when 0 < i < length and the number of digits after i is a multiple of three |
| ArabicFormat.GroupThousandsPlacement | src/pages/OrderShiftsReport.jsx:157 | on ASCII digits, up to three digits are left alone and a longer run is its grouped front, then "٬", then its last three digits: a separator before every block of three counted from the right |
| ArabicFormat.GroupedCurrencyExample | src/pages/OrderShiftsReport.jsx:148-160 | with grouping first, 1234.5 starts "١٬", whereas as written it has no separator |
| ArabicFormat.GroupedNumberExample | src/pages/OrderShiftsReport.jsx:162-171 | with grouping first, 1234.6 prints "١٬٢٣٥" instead of "١٢٣٥" |
| Catalog.BuildCategoryFilters | src/pages/Home.jsx:135-146 | no filter for "all" and "offers", otherwise exactly one "category.id" filter carrying the selected id |
| Catalog.FindByOriginalId | src/pages/Home.jsx:995-997 | the found category is in the list with that server id, and None means no category has it |
| Catalog.AvailabilityRules | src/pages/Home.jsx:990-1025 | cart availability iff active and category not disabled; no category id means enabled and toggleable; an unknown category disables the cart but still allows the toggle |
| Catalog.SearchProductsSpec | src/pages/Home.jsx:294-325 | the grid keeps order and holds exactly the products with an enabled offer (when "offers" is selected) that match name, description or an ingredient ignoring case (when a term is typed) |
| Catalog.ToggleCategoryOnlyMatching | src/pages/Home.jsx:868-893 | after a successful toggle only the matching category flips `isActive`, and nothing else changes |
| Catalog.ToggleCategoryTwice | src/pages/Home.jsx:889-893 | toggling the same category twice restores the list |
| Catalog.FindById | src/pages/Home.jsx:810 | the found category has that id, and None means none has it |
| Catalog.DeleteCategorySpec | src/pages/Home.jsx:796-848 | a fixed entry, an id not in the list (where the code throws on `category.originalId`), a category that still holds products, a cancelled confirmation or a failed request each leave the strip and the selection unchanged; otherwise the category is deleted: exactly the entries with that id go, the rest keep their order, and the selection falls back to "all" only if it was the deleted entry |
| RequiredOptions.ExtractedAreTrimmed | src/pages/Home.jsx:408-422 | a missing or empty message gives no options; every extracted option is non-empty and trimmed |
| RequiredOptions.ReplaceFirstOnlyFirst | src/pages/Home.jsx:411-413 | `replace` with a string pattern removes only the first occurrence |
| RequiredOptions.FormatShape | src/pages/Home.jsx:424-438 | none gives "", one gives itself, and more give "a، b و c" |
| RequiredOptions.FormatEdges | src/pages/Home.jsx:424-438 | for clean names the formatted text has no "." and no space at either end |
| RequiredOptions.SplitJoined | src/pages/Home.jsx:416-419 | splitting the joined sentence on "،", "," and " و " yields the names back (with a leading space after each "، ") |
| RequiredOptions.PiecesOfFormat | src/pages/Home.jsx:416-438 | splitting a formatted list of two or more names yields its pieces |
| RequiredOptions.TextToNames | src/pages/Home.jsx:416-420 | trimming and dropping empty pieces of the split recovers the names |
| RequiredOptions.SentenceToText | src/pages/Home.jsx:411-414 | removing the English prefix and the final "." and then trimming leaves the formatted list |
| RequiredOptions.ExtractInvertsFormat | src/pages/Home.jsx:408-438 | the parser inverts the formatter: a server sentence listing clean names parses back to exactly those names; a clean name is one word, with no whitespace and none of "،", "," and "." |
| RequiredOptions.CleanTrimmed | src/pages/Home.jsx:417 | a clean option name is its own trim |
| Users.BuildEmailFilters | src/hooks/useUsers.js:137-149 | no filter for a blank term, otherwise one "email" filter with the untrimmed term |
| Users.SortUsers | src/hooks/useUsers.js:408-419 | copying and sorting yields the signed-in account's rows first, then the rest, each group in list order |
| Users.MoveForward | src/hooks/useUsers.js:412-416 | the in-place step moves one row forward past a block and shifts the block by one |
| Users.PartitionSnoc | src/hooks/useUsers.js:412-416 | appending a row puts it at the end of its own group |
| Users.SortedIsPermutation | src/hooks/useUsers.js:408-419 | the sorted list is a permutation of the list, and without a signed-in account the list is returned as is |
| Users.SortedCurrentFirst | src/hooks/useUsers.js:412-416 | no other row precedes a row of the signed-in account, and it comes first when present |
| Users.SortedOthersKeepOrder | src/hooks/useUsers.js:412-416 | the other rows keep their relative order |
| Users.SortedSingleCurrent | src/hooks/useUsers.js:408-419 | with one matching row, it is moved to the front and the others follow in order |
| Users.FilteredRolesSpec | src/hooks/useUsers.js:421-438 | an order-preserving subset; a Restaurant-only account loses exactly the "Admin" role; anyone else sees all roles |
| Users.RolesToAssignSpec | src/hooks/useUsers.js:440-445 | the assignable roles are exactly the permitted ones the user does not already hold, in order |
| Users.AssignRoleSpec | src/hooks/useUsers.js:258-270 | on success, only the user with that id gains the role at the end of their roles; on failure nothing changes |
| Users.SetActive | src/hooks/useUsers.js:303-312 | only rows with that id get the new flag; the rest are unchanged |
| Users.ToggleSavedSpec | src/hooks/useUsers.js:284-312 | confirming flips `isActive` of that user in both lists and nothing else; doing it again restores the lists |
| Users.ToggleRollbackSpec | src/hooks/useUsers.js:318-330 | a failed request restores both lists as they were, and cancelling leaves them untouched |
| ProductDetails.QuantitySteps | src/pages/ProductDetails.jsx:317-319 | the quantity never drops below 1, and increment and decrement undo each other above 1 |
| ProductDetails.DisplayQuantityReadsBack | src/pages/ProductDetails.jsx:285-288 | the shown quantity has no ASCII digits and reads back to the quantity's decimal text |
| ProductDetails.AddonSelectSpec | src/pages/ProductDetails.jsx:321-345 | other add-ons are untouched; "single" stores exactly that option; "multiple" toggles only that option and drops an emptied add-on; no duplicates arise |
| ProductDetails.AddonSelectTwice | src/pages/ProductDetails.jsx:326-344 | choosing an unchosen option twice in a "multiple" add-on restores the selection |
| ProductDetails.FilterNoDuplicates | src/pages/ProductDetails.jsx:330-332 | removing an option keeps a selection list free of duplicates |
| ProductDetails.MissingRequiredSpec | src/pages/ProductDetails.jsx:407-412 | the missing add-ons are exactly the required ones with no selection entry, in order |
| ProductDetails.CollectOptions | src/pages/ProductDetails.jsx:434-439 | the loop collects the chosen option ids add-on by add-on in ascending add-on id order |
| ProductDetails.SmallestKey | src/pages/ProductDetails.jsx:435 | the next add-on visited is the one with the smallest id left |
| ProductDetails.AddToCart | src/pages/ProductDetails.jsx:371-457 | asks to log in without a token, refuses an unavailable product, lists the titles of missing required add-ons, and otherwise adds the quantity with all chosen options |
| ProductDetails.AddItemHasRequired | src/pages/ProductDetails.jsx:407-416 | whenever an item is added, every required add-on has a selection |
| ProductDetails.FinalPriceSpec | src/pages/ProductDetails.jsx:157-162 | a percentage offer takes base×value/100 off and a fixed one takes the value off; the price stays within 0..base for sensible offers and goes negative for a discount above the price |
| ProductDetails.FindOption | src/pages/ProductDetails.jsx:360 | the found option is in the list with that id, and None means none has it |
| ProductDetails.AddOptionPrices | src/pages/ProductDetails.jsx:359-364 | the innermost loop adds price×quantity for every add-on group that holds the option |
| ProductDetails.CalculateTotalPrice | src/pages/ProductDetails.jsx:347-369 | the nested loops compute exactly the specified total |
| ProductDetails.OptionIdsPriceConcat | src/pages/ProductDetails.jsx:357-366 | option prices add up over concatenated selections |
| ProductDetails.OptionIdsScales | src/pages/ProductDetails.jsx:362 | option prices scale linearly with the quantity |
| ProductDetails.TotalPriceSpec | src/pages/ProductDetails.jsx:347-369 | no product gives 0; with nothing selected the total is price×quantity; the total is linear in the quantity |
| ProductDetails.TotalAtLeastBase | src/pages/ProductDetails.jsx:347-369 | with non-negative option prices and quantity ≥ 1, the total is at least price×quantity |
| Orders.AddOptionPrices | src/pages/MyOrders.jsx:74-78 | the option loop adds every option's price at order time, with a missing price counted as 0 |
| Orders.CalculatePricesFromItems | src/pages/MyOrders.jsx:51-92 | all zeros for missing or empty items; otherwise the loops yield exactly the specified subtotal, additions and discount, with fee and total left at 0 |
| Orders.DiscountNonNegative | src/pages/MyOrders.jsx:80-82 | only positive discounts are summed, so the discount is never negative |
| Orders.AdditionsIgnoreQuantity | src/pages/MyOrders.jsx:74-78 | option prices are added once per line whatever its quantity |
| Orders.SumsConcat | src/pages/MyOrders.jsx:66-83 | the three sums add up over concatenated item lists |
| Orders.TotalWithFeeByLines | src/pages/MyOrders.jsx:458-467 | the calculated total with fee is the sum of line totals plus the delivery cost (0 when missing) |
| Orders.NormaliseItemSpec | src/pages/MyOrders.jsx:435-455 | a negative line total becomes its absolute value; a missing or empty name, image or description snapshot is kept when present and otherwise becomes the menu item's value, or without a menu item "عنصر غير معروف", no image and ""; a non-positive base price becomes the menu item's or 0; the base price used for sums is unchanged; normalising again changes nothing |
| Orders.StatusLabelsSpec | src/pages/MyOrders.jsx:282-304 | every status maps to one of the six keys; an unknown one maps to "pending" and is shown as is; a known one is shown by an Arabic label different from the raw status |
| Orders.StatusKeyRoundTrip | src/pages/MyOrders.jsx:282-292 | a known status is recovered from the key mapStatus gives it |
| Orders.StatusLabelRoundTrip | src/pages/MyOrders.jsx:294-304 | a known status is recovered from the Arabic label getStatusText gives it |
| Orders.StatusLabelsDistinct | src/pages/MyOrders.jsx:282-304 | two different known statuses get different keys and different Arabic labels |
| Orders.BuildOrdersQuery | src/pages/MyOrders.jsx:98-133 | skipped on the initial load, cleared without a token; otherwise the endpoint depends on the role, and each of status, startRange, endRange and userId is sent iff its condition holds, with its value |
| Orders.CancelOrderSpec | src/pages/MyOrders.jsx:364-380 | on confirmation only the order with that id becomes "Cancelled", and so do the open details when they show it; cancelling again changes nothing |
| Auth.PasswordRules | src/pages/AuthPage.jsx:225-236 | all checks pass iff the length is ≥ 8, there is a lower-case, an upper-case and a special character, and the confirmation matches; the empty password never passes |
| Auth.AlphanumericRejected | src/pages/AuthPage.jsx:229 | a password made only of ASCII letters and digits is always rejected |
| Auth.PasswordExample | src/pages/AuthPage.jsx:225-235 | "Abcdefg!" passes with a matching confirmation and fails with any other |
| Auth.RegisterForm | src/pages/AuthPage.jsx:235-244 | the form is built iff all checks pass |
| Auth.RegisterFormSpec | src/pages/AuthPage.jsx:237-244 | the form has six fields and carries the password (of length ≥ 8) and an equal confirmation; an empty password never gets that far |
| Auth.TickSpec | src/pages/AuthPage.jsx:366-373 | the timer never goes negative, drops by one above 1, strictly decreases until 0, and resend is enabled exactly at 0 |
| Auth.CountdownValue | src/pages/AuthPage.jsx:364-376 | after n ticks the timer reads max(start − n, 0) |
| Auth.SixtySeconds | src/pages/AuthPage.jsx:253 | from 60, the 60th tick reaches 0 and enables resend |
| Auth.TranslateGoogleError | src/pages/AuthPage.jsx:60-66 | the "already has password" text is returned iff that exact key is given; anything else gets the generic message |
| Auth.ExtractTokenSpec | src/pages/AuthPage.jsx:68-75 | a hash starting "#token=" yields the rest of the hash; otherwise the query-string token is used |
| Branches.CollectMessages | src/pages/AdminBranches.jsx:28-37 | the nested loops collect exactly the specified messages |
| Branches.ShowErrorAlert | src/pages/AdminBranches.jsx:13-74 | the generic alert iff the payload is not an object or holds no messages; otherwise the data-error alert over the collected messages |
| Branches.ErrorAlertSpec | src/pages/AdminBranches.jsx:13-51 | the detailed alert appears iff some field holds a non-empty list; otherwise the generic block is shown |
| Branches.CollectedMembership | src/pages/AdminBranches.jsx:30-36 | a message is collected iff it is in the list of some field |
| Branches.CollectedConcat | src/pages/AdminBranches.jsx:30-36 | messages are collected field after field, in key order |
| Branches.NonListFieldsIgnored | src/pages/AdminBranches.jsx:32 | fields that are not lists contribute nothing |
| Branches.MessagesHtmlBlocks | src/pages/AdminBranches.jsx:53-70 | the k-th message sits in its own block between the blocks of the earlier and of the later messages |
| Branches.MessagesHtmlConcat | src/pages/AdminBranches.jsx:53-70 | the HTML of a concatenation is the concatenation of the HTML |
| Branches.MessagesHtmlLength | src/pages/AdminBranches.jsx:53-66 | the HTML has one block frame per message plus the messages' lengths |
| Branches.PhoneTypeLabels | src/pages/AdminBranches.jsx:112-123 | Mobile, Landline and Other get three distinct Arabic labels; any other type is shown as is |
| Branches.SearchBranchesSpec | src/pages/AdminBranches.jsx:166-184 | a blank term shows all branches; otherwise an order-preserving list of exactly the matching branches |
| Branches.SearchIgnoresCaseOfTextFields | src/pages/AdminBranches.jsx:171-177 | for the text fields the term's case does not matter |
| Branches.NormalisePhones | src/pages/AdminBranches.jsx:262-268 | the phone list keeps its length |
| Branches.NormalisePhonesSpec | src/pages/AdminBranches.jsx:262-268 | numbers and types are kept in order; `isWhatsapp` survives only on "Mobile"; normalising twice changes nothing |
| Branches.EditFormSpec | src/pages/AdminBranches.jsx:214-232 | each missing text field (name, e-mail, address, location link, opening and closing time, manager) becomes "" and a present one is copied; a missing or empty status becomes "Open", another is kept; `isActive` becomes true only when absent; `cityId` is the city's id, empty without a city or for id 0; the phones are the branch's own phones in normal form, or none |
| Branches.PrepareSubmit | src/pages/AdminBranches.jsx:259-273 | the copied and edited payload is exactly the specified submit payload |
| Branches.SubmitPayloadSpec | src/pages/AdminBranches.jsx:259-273 | `locationUrl` is removed iff blank and otherwise kept; phones are normalised; every other field is sent as entered |
| Branches.EditThenSubmit | src/pages/AdminBranches.jsx:214-273 | re-submitting an edited branch sends the phones as shown and keeps its location link iff it is not blank |
| Branches.NewBranchSubmit | src/pages/AdminBranches.jsx:186-200 | the untouched new-branch form is sent with no location link, no phones, status "Open" and active |
| AdminUsers.IsFormValidSpec | src/pages/AdminUsers.jsx:206-218 | complete iff first name, last name and e-mail are not blank, `roles.length` is 1, and the password is not blank when `isAdding` is false; while adding the password is ignored |
| AdminUsers.HandleSubmitSpec | src/pages/AdminUsers.jsx:110-123 | a user is submitted iff the form is complete, carrying the form's fields and exactly one role |
| AdminUsers.NormaliseRolesSpec | src/pages/AdminUsers.jsx:119-122 | a list is kept as is and a single name becomes a one-element list |
| AdminUsers.SingleRoleNameRejected | src/pages/AdminUsers.jsx:207-211 | a single role name held directly fails the check (its `.length` counts characters), while the same role in a list passes |
| AdminUsers.EmptyFormIncomplete | src/pages/AdminUsers.jsx:130-141 | the reset form cannot be submitted in either mode |
| AdminUsers.RoleBadgeColorSpec | src/pages/AdminUsers.jsx:163-174 | Admin, Restaurant and Branch get distinct colours, and every other role gets the grey default |

## Findings

| source | as written | input that shows it | evidently intended | confidence | as-written member | corrected member |
|---|---|---|---|---|---|---|
| src/pages/OrderShiftsReport.jsx:155-157 | thousands grouping runs `/\B(?=(\d{3})+(?!\d))/g` on the whole part after its digits became Arabic-Indic, and `\d` only matches ASCII digits | 1234.5 gives "١٢٣٤.٥٠ ج.م" | "١٬٢٣٤.٥٠ ج.م": group the ASCII digits, then substitute | high; not executed | ArabicFormat.FormatCurrencyFinite | ArabicFormat.GroupedCurrencyExample |
| src/pages/OrderShiftsReport.jsx:167-170 | the same grouping regex runs on the already substituted integer | 1234.6 gives "١٢٣٥" | "١٬٢٣٥" | high; not executed | ArabicFormat.NumberExample | ArabicFormat.GroupedNumberExample |

The corrected formatters are `ArabicFormat.GroupedCurrencyArabic` and `ArabicFormat.GroupedNumberArabic`. `GroupedCurrencyOnlyAddsSeparators` and `GroupedNumberOnlyAddsSeparators` prove that they differ from the code as written only by the inserted separators.

## Notes on the code as written

The model follows the code in both of these:

- A currency amount is written with an ASCII "." between its whole and fraction parts. Only the missing-amount text uses the Arabic decimal separator "٫" (`CurrencySeparatorQuirk`).
- The thousands grouping never applies (see Findings).

## Left out

- Rendering, animation, CSS, SweetAlert and toast presentation. The model keeps only the title and HTML of the branch error alert, and the text and data of the other decisions.
- HTTP calls, the async sequencing around them, and `localStorage`. Their outcome enters the model as a parameter: `succeeded`, `hasToken`, `confirmed`, `ToggleOutcome`, or the server payload.
- Timers and polling: the order auto-refresh, the confirmation-e-mail polling and the dark-mode polling. Only the countdown tick is modelled.
- Date and locale formatting done by host libraries: `formatTimeTo12Hour`, `addTwoHoursToDate`, `toLocaleDateString` and the `toLocaleString("ar-EG")` currency formatter. The printable report template and printing are also left out.
- DOM scroll, drag and resize handlers.
- Binary floating point. Amounts are exact reals: `toFixed(2)` rounds half away from zero on the exact value, `Math.round` rounds halves up, and exponent notation for very large or small numbers is not modelled.
- String lengths count Unicode scalar values, not UTF-16 code units. `toLowerCase`, `trim` and `\s` are ASCII-only.
- Users.SortUsers: the comparator is inconsistent when several users share the signed-in e-mail, so the engine's order among them is unspecified. The model places them in list order. With at most one such row this coincides with any conforming sort (`SortedSingleCurrent`).
- Orders.StatusLabelsSpec and Auth.TranslateGoogleError: object-literal lookups can also hit inherited keys such as "constructor". The model treats only the listed keys as known.
- Extracting an error from the URL (`extractErrorFromUrl`, with `decodeURIComponent`) is not part of this model.
- ProductDetails.DisplayQuantity: the product page's `toArabicNumbers` throws on null. The model only applies it to integer quantities, which are never null.
- ProductDetails.CalculateTotalPrice and ProductDetails.CollectOptions: the selection is keyed by add-on id (a natural number), visited in ascending order as JavaScript orders integer-like keys. Negative or non-integer keys are not modelled.
- Branches.ShowErrorAlert: the payload's fields are given in `Object.keys` order, and each message is a string. Non-string array elements, which the code would interpolate with `String()`, are not modelled.
- Branches.EditFormSpec: `cityId` is `None` for the empty selection and `isActive` is an optional boolean. A `null` `isActive` is not distinguished from a present value.
- RequiredOptions.ExtractInvertsFormat: the round trip is proved only for one-word group names. A name with inner spaces, such as "صوص حار", is outside `CleanOption`. Some such names do come back, but names that begin with "و " or end with " و" do not.
- Branches.PrepareSubmit: the caller must supply `locationUrl`, as the form always does. The code would throw on a form without one.
- Phone objects are modelled with only the number, the type and `isWhatsapp`, the fields the normalisation copies.
