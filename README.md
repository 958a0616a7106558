# Food ordering app: a verified model

This project models the core of a restaurant ordering application. The
backend is Laravel; the pages are React driven by Inertia.

Customers browse a menu of foods grouped by category. Each food has named
portion sizes with prices. Customers put lines in a client-side cart and
check out, either as guests or signed in. The server then validates the
order, finds or creates the customer's user record, computes subtotal,
10% tax, delivery fee and total, and draws an order number
`ORD-XXXXXXXX-YYYYMMDD`. In one transaction it writes the order and one item
row per cart line, then tries two confirmation mails whose failure it
ignores. Administrators list orders by status and type, list foods by
category and status, create foods with their sizes, and edit them. An edit
reconciles the submitted sizes with the stored ones: it updates, creates or
deletes size rows.

The database is a set of tables (`map<nat, Row>` with a next-id counter per
table). It enforces these constraints of the migrations (column widths and
ranges are not enforced; see "## Left out"):

- unique order numbers;
- unique size names per food;
- foreign keys: cascade from users to orders, cascade from orders to items,
  restrict from foods to items, cascade from foods to sizes;
- column defaults.

Every write is a function of the tables that names the violation it can
raise. A transaction either returns its new tables or rolls back to the old
ones.

The client components follow the same pattern:

- the cart store;
- the cart sheet;
- the add-to-cart dialog;
- the checkout dialog;
- the admin create page and edit dialog;
- the menu pages and the admin foods page.

Each is a class whose fields are the component's state. Its methods are the
event handlers, each specified by a function of the old state. The replies
of servers and browsers are parameters.

Money is modelled with real numbers, so prices are exact and IEEE doubles
are not modelled. The two decimals the order model's `decimal:2` casts
(app/Models/Order.php:49-52) give each amount when it is read back are
modelled separately, as rounding to cents. The same rounding is what a
`decimal(10,2)` column keeps on an engine that rounds; SQLite keeps the
value as written. The columns' range is not modelled. Requests are modelled after Laravel's
`ConvertEmptyStringsToNull` middleware: an empty optional text arrives as
null (`FormState.Received`).

Modules:

- `common.dfy` (module `Common`): records (JavaScript objects / PHP arrays), filters, maps.
- `schema.dfy` (module `Schema`): the tables, their constraints and writes.
- `order_number.dfy` (module `OrderNumbers`): the order number format.
- `pricing.dfy` (module `Pricing`): subtotal, tax, fee, total, cents rounding.
- `order_validation.dfy` (module `OrderValidation`): `OrderController::store` validation rules.
- `order_controller.dfy` (module `OrderPlacement`): `OrderController::store` and `orders`.
- `food_validation.dfy` (module `FoodValidation`): `FoodController::store`/`update` validation rules.
- `food_listing.dfy` (module `FoodListing`): `FoodController::index`, `foods` and ordering.
- `food_controller.dfy` (module `FoodAdmin`): `FoodController::store` and `update`.
- `grouping.dfy` (module `Grouping`): `groupBy` and its properties.
- `number_input.dfy` (module `NumberInput`): `parseInt(text) || 0` and `parseFloat(text) || 0`.
- `form_state.dfy` (module `FormState`): error maps and list edits shared by the forms.
- `cart.dfy` (module `Cart`): the cart store.
- `cart_sheet.dfy` (module `CartSheet`): the cart sheet's buttons.
- `add_to_cart.dfy` (module `AddToCart`): the add-to-cart dialog.
- `checkout.dfy` (module `Checkout`): the checkout dialog.
- `food_form.dfy` (module `FoodForms`): the form data both admin forms share.
- `create_food.dfy` (module `CreateFood`): the "add food" page.
- `edit_food_dialog.dfy` (module `EditFood`): the "edit food" dialog.
- `menu.dfy` (module `Menu`): the home, welcome and dashboard menu pages.
- `foods_page.dfy` (module `FoodsPage`): the admin foods page.

## Model

| member | source | states |
|---|---|---|
| Schema.ParseStatus | database/migrations/2025_12_04_224354_create_orders_table.php:18-25 | a status read from text is the one whose name that text is |
| Schema.ParseStatusName | database/migrations/2025_12_04_224354_create_orders_table.php:18-25 | every one of the six statuses reads back from its name |
| Schema.ParseType | app/Http/Controllers/OrderController.php:33 | a type is read exactly from `pickup`, `delivery` or `reservation`; any other text is rejected |
| Schema.ParseTypeName | database/migrations/2025_12_04_224354_create_orders_table.php:26-30 | every order type reads back from its name |
| Schema.Database.constructor | database/migrations/2025_12_04_224354_create_orders_table.php:14-58 | the database starts with empty tables |
| Schema.EmptyTables | database/migrations/2025_12_04_224354_create_orders_table.php:14-58 | the empty database meets every constraint |
| Schema.OrderRow | database/migrations/2025_12_04_224354_create_orders_table.php:18-56 | an inserted order gets the column defaults: status pending, type pickup, tax 0, fee 0, no ready time, no admin notes |
| Schema.InsertUser | app/Http/Controllers/OrderController.php:61-66 | a new user takes the next id, which was free, and the tables stay consistent |
| Schema.UpdateUser | app/Http/Controllers/OrderController.php:69-72 | only that user's name and phone change; every other row stays and the tables stay consistent |
| Schema.InsertOrder | database/migrations/2025_12_04_224354_create_orders_table.php:16-17 | an order insert fails exactly when its user is missing or its order number is taken; otherwise it takes the next id and keeps the tables consistent |
| Schema.InsertItem | database/migrations/2025_12_04_224356_create_order_items_table.php:16-17 | an item insert fails exactly when its food id is null or unknown or its order is missing; a null food id fails |
| Schema.InsertFood | app/Http/Controllers/FoodController.php:195-202 | a new food takes the next id and keeps the tables consistent |
| Schema.UpdateFood | app/Http/Controllers/FoodController.php:257-264 | only that food's row changes and the tables stay consistent |
| Schema.InsertSize | database/migrations/2025_12_04_223812_create_food_portion_sizes_table.php:16-23 | a size insert fails exactly when the food is missing or already has that size name; a missing sort order defaults to 0 |
| Schema.UpdateSize | database/migrations/2025_12_04_223812_create_food_portion_sizes_table.php:23 | a size update fails exactly when another size of the same food has the new name |
| Schema.DeleteSizes | app/Http/Controllers/FoodController.php:294-297 | deleting removes exactly the given size rows |
| Schema.InsertSizeKeepsConsistent | database/migrations/2025_12_04_223812_create_food_portion_sizes_table.php:23 | a successful size insert keeps every constraint |
| Schema.UpdateSizeKeepsConsistent | database/migrations/2025_12_04_223812_create_food_portion_sizes_table.php:23 | a successful size update keeps every constraint |
| Schema.DeleteSizesKeepsConsistent | database/migrations/2025_12_04_223812_create_food_portion_sizes_table.php:16 | deleting size rows keeps every constraint |
| Schema.DeleteOrder | database/migrations/2025_12_04_224356_create_order_items_table.php:16 | deleting an order cascades to exactly its items and keeps every other order and item |
| Schema.DeleteUser | database/migrations/2025_12_04_224354_create_orders_table.php:16 | deleting a user cascades to exactly their orders and those orders' items |
| Schema.DeleteFood | database/migrations/2025_12_04_224356_create_order_items_table.php:17 | deleting a food is refused exactly when an item refers to it; otherwise its sizes go with it |
| Schema.FirstFoodNamed | app/Http/Controllers/OrderController.php:112 | the food found by name has that name and no lower id does; none found means no food has it |
| Schema.FirstUserWithEmail | app/Http/Controllers/OrderController.php:57 | the user found by email has that email and no lower id does; none found means no user has it |
| Schema.SizesOf | app/Http/Controllers/FoodController.php:267 | a food's relation lists its own size rows, and every one of them |
| OrderNumbers.ToUpper | app/Http/Controllers/OrderController.php:86 | `strtoupper` maps lower-case letters to upper case and leaves other characters alone |
| OrderNumbers.UpperString | app/Http/Controllers/OrderController.php:86 | upper-casing keeps the length and maps each character |
| OrderNumbers.DateStamp | app/Http/Controllers/OrderController.php:86 | `date('Ymd')` is eight digits |
| OrderNumbers.Padded | app/Http/Controllers/OrderController.php:86 | a zero-padded number has the given width, only digits, and reads back as the number |
| OrderNumbers.OrderNumber | app/Http/Controllers/OrderController.php:86 | the order number is well formed and carries the upper-cased token |
| OrderNumbers.ParseOrderNumber | app/Http/Controllers/OrderController.php:86 | a text parses exactly when it is well formed |
| OrderNumbers.ParseOrderNumberRoundTrip | app/Http/Controllers/OrderController.php:86 | parsing an order number gives back the upper-cased token and the date |
| OrderNumbers.OrderNumberInjective | app/Http/Controllers/OrderController.php:86 | two order numbers are equal exactly when the upper-cased tokens and the dates are |
| OrderNumbers.CaseVariantsCollide | app/Http/Controllers/OrderController.php:86 | any two tokens that agree once upper-cased, character by character, give the same order number on the same day |
| OrderNumbers.UpperExample | app/Http/Controllers/OrderController.php:86 | `a1B2c3D4` upper-cases to `A1B2C3D4` |
| OrderNumbers.DateStampExample | app/Http/Controllers/OrderController.php:86 | 4 December 2025 stamps as `20251204` |
| OrderNumbers.OrderNumberExample | app/Http/Controllers/OrderController.php:86 | token `a1B2c3D4` on 4 December 2025 gives `ORD-A1B2C3D4-20251204` |
| Pricing.SubtotalAppend | app/Http/Controllers/OrderController.php:77-79 | the subtotal of two runs of lines is the sum of their subtotals |
| Pricing.SubtotalNonNegative | app/Http/Controllers/OrderController.php:77-79 | lines with quantity at least 1 and non-negative prices have a non-negative subtotal |
| Pricing.DeliveryFee | app/Http/Controllers/OrderController.php:82 | the fee is 5 for delivery and 0 otherwise |
| Pricing.ComputeAmounts | app/Http/Controllers/OrderController.php:77-83 | subtotal is the sum of price times quantity, tax a tenth of it, total their sum plus the fee |
| Pricing.AmountsNonNegative | app/Http/Controllers/OrderController.php:77-83 | for validated lines every amount is non-negative and the total is at least the fee |
| Pricing.JollofRicePickup | app/Http/Controllers/OrderController.php:77-83 | two 80.00 pans for pickup come to 160 + 16 + 0 = 176 |
| Pricing.JollofRiceDelivery | app/Http/Controllers/OrderController.php:77-83 | the same for delivery comes to 181 |
| Pricing.RoundCentsIsCents | app/Models/Order.php:49-52 | an amount read back through the `decimal:2` cast is a whole number of cents |
| Pricing.RoundCentsError | app/Models/Order.php:49-52 | the cast moves an amount by at most half a cent |
| Pricing.RoundCentsOfCents | app/Models/Order.php:49-52 | an amount in whole cents reads back unchanged |
| Pricing.SubtotalIsCents | app/Http/Controllers/OrderController.php:77-79 | prices in whole cents give a subtotal in whole cents |
| Pricing.StoredAmounts | app/Models/Order.php:49-52 | all four amounts, as the casts read them back, are whole cents |
| Pricing.StoredAmountsAddUp | app/Models/Order.php:49-52 | when subtotal and fee are whole cents, the total read back is the sum of the parts read back |
| Pricing.FeeIsCents | app/Http/Controllers/OrderController.php:82 | the delivery fee is whole cents |
| Pricing.StoredTotalAddsUp | app/Http/Controllers/OrderController.php:89-97 | for prices in whole cents the stored order adds up and keeps the exact subtotal |
| Pricing.StoredTotalDriftsWithSubCentPrices | app/Http/Controllers/OrderController.php:89-97 | a 0.0049 price stores parts 0, 0, 0 with a total of 0.01, which does not add up |
| OrderValidation.Given | app/Http/Controllers/OrderController.php:100-106 | an optional field is present exactly when it was sent non-empty, and then is what was sent |
| OrderValidation.FailingAttributeListed | app/Http/Controllers/OrderController.php:27-47 | only the listed attributes (and one per item) can fail |
| OrderValidation.Errors | app/Http/Controllers/OrderController.php:27-47 | the error set holds exactly the failing attributes |
| OrderValidation.AcceptableFailsNothing | app/Http/Controllers/OrderController.php:27-47 | an acceptable request fails no rule |
| OrderValidation.NothingFailingIsAcceptable | app/Http/Controllers/OrderController.php:27-47 | a request failing no rule is acceptable |
| OrderValidation.ErrorsEmptyIffAcceptable | app/Http/Controllers/OrderController.php:27-47 | there are no errors exactly when the request is acceptable |
| OrderValidation.Accepted | app/Http/Controllers/OrderController.php:27-47 | an error-free request has a known type, at least one well-priced item, a name and an email |
| OrderValidation.Validate | app/Http/Controllers/OrderController.php:27-47 | validation fails exactly for unacceptable requests and names their errors; otherwise it returns the request's data with absent optionals as null and, for delivery, an address |
| OrderValidation.ListedRejections | app/Http/Controllers/OrderController.php:28-43 | no items, a quantity below 1, a negative price, an unknown type, notes over 1000 characters, or a delivery without address are rejected |
| OrderPlacement.ResolveUser | app/Http/Controllers/OrderController.php:53-74 | the signed-in user is used as is; otherwise the first user with the email gets the new name and, if sent, phone; otherwise a new user is created; only the users table changes |
| OrderPlacement.InsertItemsWritesOnlyItems | app/Http/Controllers/OrderController.php:110-123 | the item loop writes one row per line at consecutive ids and nothing else |
| OrderPlacement.InsertItemsFailsOnUnknownFood | app/Http/Controllers/OrderController.php:112-116 | the item loop succeeds exactly when every line names a stored food, and otherwise fails on the null food id |
| OrderPlacement.InsertItemsRows | app/Http/Controllers/OrderController.php:110-123 | each item row carries the first food with the line's name, the line's size, quantity and price, and price times quantity |
| OrderPlacement.ItemsTotalIsSubtotal | app/Http/Controllers/OrderController.php:121 | the item totals add up to the order's subtotal |
| OrderPlacement.InsertItemsConsistent | app/Http/Controllers/OrderController.php:110-123 | the item loop keeps every constraint |
| OrderPlacement.InsertItemsStopsAtFirstFailure | app/Http/Controllers/OrderController.php:110-123 | once a line fails, later lines change nothing |
| OrderPlacement.InsertLines | app/Http/Controllers/OrderController.php:110-123 | the item loop writes what the item rows of the lines say, or fails with the first failing line's violation |
| OrderPlacement.FoundIffNamed | app/Http/Controllers/OrderController.php:112 | the lookup by name finds a food exactly when some stored food has that name |
| OrderPlacement.LinesNameFoods | app/Http/Controllers/OrderController.php:110-116 | every line finds its food exactly when every line names a stored food |
| OrderPlacement.Transact | app/Http/Controllers/OrderController.php:49-169 | the transaction never reports a validation error and leaves the tables untouched unless it places the order |
| OrderPlacement.Place | app/Http/Controllers/OrderController.php:25-169 | a request is rejected with its errors exactly when it is unacceptable; the tables change only when an order is placed |
| OrderPlacement.PlacedOrder | app/Http/Controllers/OrderController.php:89-123 | a placed order is pending, has a fresh id, the drawn number, the computed amounts, the request's contact and delivery data, and one item per line whose totals sum to its subtotal; the tables stay consistent |
| OrderPlacement.PlacedOrderRow | app/Http/Controllers/OrderController.php:85-104 | the placed order row is pending, takes the next id and the drawn number, the computed amounts and the resolved user; only users, orders and items change |
| OrderPlacement.PlacedOrderItems | app/Http/Controllers/OrderController.php:110-123 | a placed order has one item row per line, whose totals add up to its subtotal, and the store stays consistent |
| OrderPlacement.OrderRolledBack | app/Http/Controllers/OrderController.php:86-161 | a refused order insert leaves the tables as they were |
| OrderPlacement.ItemsRolledBack | app/Http/Controllers/OrderController.php:110-161 | a refused item insert leaves the tables as they were |
| OrderPlacement.OrderCommitted | app/Http/Controllers/OrderController.php:86-127 | when every insert succeeds the order and its item rows are committed |
| OrderPlacement.PlacedIff | app/Http/Controllers/OrderController.php:49-125 | an order is placed exactly when its number is free and every line names an existing food |
| OrderPlacement.UnknownFoodRollsBack | app/Http/Controllers/OrderController.php:112-168 | a line naming no food rolls the whole order back, user changes included, with a 500 |
| OrderPlacement.TakenNumberRollsBack | app/Http/Controllers/OrderController.php:86-161 | a taken order number rolls the order back |
| OrderPlacement.PlacedUserIsResolved | app/Http/Controllers/OrderController.php:53-90 | a placed order belongs to the resolved user and the users table is as resolved |
| OrderPlacement.PlacedUserAuthenticated | app/Http/Controllers/OrderController.php:53-55 | a signed-in customer's order is theirs and no user changes |
| OrderPlacement.PlacedUserByEmail | app/Http/Controllers/OrderController.php:57-73 | a guest with a known email orders as the first such user, whose name and (if sent) phone are updated |
| OrderPlacement.PlacedUserCreated | app/Http/Controllers/OrderController.php:59-66 | a guest with a new email orders as a new user with the sent name, email and phone |
| OrderPlacement.PlaceKeepsConsistent | app/Http/Controllers/OrderController.php:49-169 | placing keeps every database constraint, whatever the outcome |
| OrderPlacement.Render | app/Http/Controllers/OrderController.php:147-168 | the reply is 200 with success for a placed order, 422 for errors, 500 with the general message otherwise, with the cause only in debug mode |
| OrderPlacement.Mails | app/Http/Controllers/OrderController.php:131-145 | a placed order tries the customer confirmation to the order's email, then the admin notification to ADMIN_EMAIL or admin@example.com, each with its own delivery outcome; no other outcome sends mail |
| OrderPlacement.Store | app/Http/Controllers/OrderController.php:25-170 | the stored tables and the response are those of placing the request, and the mails those of the outcome |
| OrderPlacement.ListOrders | app/Http/Controllers/OrderController.php:175-188 | the listed orders are exactly the stored orders matching the status and type filters |
| OrderPlacement.UnknownFilterListsNothing | app/Http/Controllers/OrderController.php:181-183 | a status filter that names no status lists nothing |
| OrderPlacement.Statuses | app/Http/Controllers/OrderController.php:210-218 | each order's status, by id |
| OrderPlacement.StatusCountsSumToAll | app/Http/Controllers/OrderController.php:210-218 | the six status counts add up to the count of all orders |
| OrderPlacement.SixStatusesPartition | app/Http/Controllers/OrderController.php:210-218 | the six statuses split any set of orders |
| FoodValidation.FailingAttributeListed | app/Http/Controllers/FoodController.php:164-175 | only the listed attributes (and those of each size) can fail |
| FoodValidation.Errors | app/Http/Controllers/FoodController.php:164-175 | the error set holds exactly the failing attributes |
| FoodValidation.AcceptableFailsNothing | app/Http/Controllers/FoodController.php:164-175 | an acceptable food request fails no rule |
| FoodValidation.NothingFailingIsAcceptable | app/Http/Controllers/FoodController.php:164-175 | a food request failing no rule is acceptable |
| FoodValidation.ErrorsEmptyIffAcceptable | app/Http/Controllers/FoodController.php:239-251 | there are no errors exactly when the food request is acceptable |
| FoodValidation.ValidSizes | app/Http/Controllers/FoodController.php:171-174 | the validated sizes carry the sent names, prices and sort orders; only `update` keeps an id |
| FoodValidation.Validate | app/Http/Controllers/FoodController.php:239-251 | validation fails exactly for unacceptable requests and names their errors; otherwise it returns the fields, at least one size with non-negative prices, the image path only on update, and ids of existing sizes |
| FoodValidation.ListedRejections | app/Http/Controllers/FoodController.php:171-173 | no sizes, a size without a price or with a negative price is rejected |
| FoodListing.BelowIrreflexive | app/Http/Controllers/FoodController.php:22 | no category sorts before itself |
| FoodListing.BelowTransitive | app/Http/Controllers/FoodController.php:22 | category order is transitive |
| FoodListing.BelowTotal | app/Http/Controllers/FoodController.php:22 | any two categories are equal or ordered |
| FoodListing.BelowAsymmetric | app/Http/Controllers/FoodController.php:22 | category order is asymmetric |
| FoodListing.NotAfterTotal | app/Http/Controllers/FoodController.php:22-23 | any two rows are ordered by category, then sort order |
| FoodListing.NotAfterTransitive | app/Http/Controllers/FoodController.php:22-23 | row order is transitive |
| FoodListing.Insert | app/Http/Controllers/FoodController.php:22-23 | inserting a row adds exactly it |
| FoodListing.InsertSorted | app/Http/Controllers/FoodController.php:22-23 | inserting into sorted rows keeps them sorted |
| FoodListing.Sort | app/Http/Controllers/FoodController.php:83-84 | sorting permutes the rows |
| FoodListing.SortSorted | app/Http/Controllers/FoodController.php:83-84 | sorted rows are in category, then sort-order order |
| FoodListing.InsertKeepsTieOrder | app/Http/Controllers/FoodController.php:22-23 | inserting a row whose id is above those of its ties keeps tied rows in id order |
| FoodListing.SortKeepsTieOrder | app/Http/Controllers/FoodController.php:22-23 | the sort is stable: rows given in ascending id order keep id order among rows tied on category and sort order |
| FoodListing.QueryTiesInIdOrder | app/Http/Controllers/FoodController.php:82-84 | rows of a query that tie on category and sort order come in ascending id order |
| FoodListing.QuerySorted | app/Http/Controllers/FoodController.php:82-84 | a query's rows are sorted |
| FoodListing.QueryRowsAreFoods | app/Http/Controllers/FoodController.php:82-98 | a query's rows are stored foods that satisfy its conditions |
| FoodListing.FilterSorted | app/Http/Controllers/FoodController.php:87-98 | filtering a sorted list keeps it sorted |
| FoodListing.QueryContents | app/Http/Controllers/FoodController.php:82-98 | a query lists exactly the stored foods matching its conditions, sorted |
| FoodListing.SortKeepsRows | app/Http/Controllers/FoodController.php:22-23 | ordering the rows neither adds nor drops one |
| FoodListing.FilteredRows | app/Http/Controllers/FoodController.php:82-98 | the rows a condition keeps are exactly the stored foods satisfying it |
| FoodListing.GetParam | app/Http/Controllers/FoodController.php:137-138 | an absent parameter echoes its default, an empty one comes back null, a text one as sent |
| FoodListing.PluckDistinct | app/Http/Controllers/FoodController.php:33 | with distinct size names, `pluck('price', 'size_name')` keeps every size, in order |
| FoodListing.SizesOfDistinct | app/Http/Controllers/FoodController.php:33 | a food's size rows come in ascending id order |
| FoodListing.PriceMapOfSizes | app/Http/Controllers/FoodController.php:33 | a food's price map lists each of its sizes by name, in relation order |
| FoodListing.MenuGroup | app/Http/Controllers/FoodController.php:31-43 | each menu food is the shape of its row |
| FoodListing.Index | app/Http/Controllers/FoodController.php:30-44 | the menu groups the active, filtered rows by category in first-occurrence order |
| FoodListing.Grouped | app/Http/Controllers/FoodController.php:30-44 | one entry per category of the rows, in first-occurrence order, holding that category's rows mapped to what the page receives |
| FoodListing.GroupedDistinct | app/Http/Controllers/FoodController.php:30 | no category is listed twice |
| FoodListing.GroupedShape | app/Http/Controllers/FoodController.php:30-43 | every group is non-empty and holds only foods of its own category |
| FoodListing.GroupedLookup | app/Http/Controllers/FoodController.php:30-43 | a category's entry is its rows, mapped, or absent when no row has it |
| FoodListing.GroupedFoodIsRow | app/Http/Controllers/FoodController.php:30-43 | every grouped food is one of the rows as mapped |
| FoodListing.RowInGrouped | app/Http/Controllers/FoodController.php:30-43 | every row appears, mapped, in some group |
| FoodListing.GroupedCategoryOrder | app/Http/Controllers/FoodController.php:22-30 | rows sorted by category give their groups in ascending category order |
| FoodListing.GroupedSortOrder | app/Http/Controllers/FoodController.php:23-43 | each group of sorted stored rows lists its foods by ascending sort order |
| FoodListing.IndexFoodsAreActive | app/Http/Controllers/FoodController.php:20-43 | every food on the menu is a stored active food matching the category filter, shown as its own row |
| FoodListing.IndexGroups | app/Http/Controllers/FoodController.php:30 | each category is one key, its group is never empty and holds only that category's foods |
| FoodListing.IndexFoodIsRow | app/Http/Controllers/FoodController.php:30-43 | every menu food comes from a listed row |
| FoodListing.RowInIndex | app/Http/Controllers/FoodController.php:30-43 | every listed row appears in some group |
| FoodListing.IndexListsActiveFoods | app/Http/Controllers/FoodController.php:20-28 | a food is on the menu exactly when it is active and matches the category filter |
| FoodListing.IndexOrder | app/Http/Controllers/FoodController.php:22 | the menu's categories come in ascending order |
| FoodListing.GroupSortOrder | app/Http/Controllers/FoodController.php:23 | a group of sorted rows is in sort order |
| FoodListing.IndexGroupSortOrder | app/Http/Controllers/FoodController.php:22-23 | within a category the menu lists foods by sort order |
| FoodListing.AdminSizes | app/Http/Controllers/FoodController.php:109-115 | the admin food lists its sizes with id, name and price |
| FoodListing.InsertCategory | app/Http/Controllers/FoodController.php:120-123 | inserting a category adds exactly it |
| FoodListing.InsertCategoryAscending | app/Http/Controllers/FoodController.php:120-123 | inserting keeps the category list ascending without repeats |
| FoodListing.CategoriesListed | app/Http/Controllers/FoodController.php:120-123 | the distinct categories are ascending and are exactly those of the rows |
| FoodListing.CountsAddUp | app/Http/Controllers/FoodController.php:126-130 | active and inactive counts add up to the total |
| FoodListing.Foods | app/Http/Controllers/FoodController.php:80-141 | the admin page lists the filtered rows, all categories, the counts and the echoed filters |
| FoodListing.FoodsListed | app/Http/Controllers/FoodController.php:82-98 | the admin rows are exactly the foods passing the filters, sorted; a status other than active/inactive filters nothing |
| FoodListing.FoodsInRowOrder | app/Http/Controllers/FoodController.php:82-115 | the admin list is sorted and follows its rows food by food, category included |
| FoodListing.FoodsCategories | app/Http/Controllers/FoodController.php:120-123 | the categories are ascending and exactly those of the stored foods |
| Grouping.GroupByKeys | app/Http/Controllers/FoodController.php:30 | the group keys are distinct and are exactly the keys of the elements |
| Grouping.GroupIsFilter | app/Http/Controllers/FoodController.php:30 | each group is the elements with its key, in list order |
| Grouping.NoEmptyGroup | app/Http/Controllers/FoodController.php:30 | no group is empty |
| Grouping.GroupSizesSum | app/Http/Controllers/FoodController.php:30 | the group sizes add up to the number of elements |
| Grouping.KeysInFirstOccurrenceOrder | app/Http/Controllers/FoodController.php:30 | the keys come in the order of their first elements |
| FoodAdmin.FoodRow | app/Http/Controllers/FoodController.php:195-202 | the food row takes the validated fields, active unless sent false, sort order 0 unless sent |
| FoodAdmin.ExistingIds | app/Http/Controllers/FoodController.php:267 | the ids are exactly those of the food's size rows |
| FoodAdmin.CreateSizesShape | app/Http/Controllers/FoodController.php:205-212 | a successful size loop leaves one row per entry at the returned ids |
| FoodAdmin.CreateSizesFrame | app/Http/Controllers/FoodController.php:205-212 | the size loop writes one row per entry at consecutive ids and nothing else |
| FoodAdmin.CreateSizesKeys | app/Http/Controllers/FoodController.php:205-212 | the size loop adds exactly the new ids and keeps the old rows |
| FoodAdmin.CreateSizesRowsAt | app/Http/Controllers/FoodController.php:205-212 | the row at each new id is its entry with sort order, or its index when there is none |
| FoodAdmin.CreateSizesOkIff | app/Http/Controllers/FoodController.php:205-212 | for a new food, the size loop succeeds exactly when the size names are distinct |
| FoodAdmin.CreateSizesStopsAtFirstFailure | app/Http/Controllers/FoodController.php:205-212 | once an entry fails, the loop fails |
| FoodAdmin.CreatedNamesTaken | database/migrations/2025_12_04_223812_create_food_portion_sizes_table.php:23 | after the loop a size name is taken for the food exactly when an entry had it |
| FoodAdmin.CreateFood | app/Http/Controllers/FoodController.php:177-231 | creating never reports a validation error, and any failure rolls back with the general message |
| FoodAdmin.StoreOutcome | app/Http/Controllers/FoodController.php:162-232 | a request is rejected with its errors exactly when it is unacceptable; the tables change only when the food is created |
| FoodAdmin.NewFoodHasNoSizes | app/Http/Controllers/FoodController.php:195-202 | a new food has no size rows yet |
| FoodAdmin.CreateFoodOkIff | app/Http/Controllers/FoodController.php:205-214 | a valid food is created exactly when its size names are distinct |
| FoodAdmin.CreateFoodWrites | app/Http/Controllers/FoodController.php:195-202 | a created food takes a fresh id and its row; users, orders, items and old sizes stay |
| FoodAdmin.CreateFoodRows | app/Http/Controllers/FoodController.php:205-212 | a created food's sizes are exactly the new rows, one per entry, in order |
| FoodAdmin.CreatedSizesAreTheFoods | app/Http/Controllers/FoodController.php:205-212 | the sizes of the new food are exactly the rows the loop wrote |
| FoodAdmin.CreateFoodKeepsConsistent | app/Http/Controllers/FoodController.php:177-231 | creating keeps every constraint, whatever the outcome |
| FoodAdmin.CreatedRowsConsistent | app/Http/Controllers/FoodController.php:195-212 | new size rows with distinct names for a food without sizes keep every constraint |
| FoodAdmin.ReconcileEntry | app/Http/Controllers/FoodController.php:272-290 | an entry with the id of an existing size of the food updates that row in place; any other entry creates a row at the next id |
| FoodAdmin.Reconcile | app/Http/Controllers/FoodController.php:271-291 | the update loop never removes a row |
| FoodAdmin.ReconcileStopsAtFirstFailure | app/Http/Controllers/FoodController.php:271-291 | once an entry fails, the loop fails |
| FoodAdmin.ReconcileStep | app/Http/Controllers/FoodController.php:271-291 | the loop over one more entry is one more entry step |
| FoodAdmin.ReconcileFrame | app/Http/Controllers/FoodController.php:271-291 | the loop writes only size rows and returns one id per entry |
| FoodAdmin.ReconcileKeys | app/Http/Controllers/FoodController.php:283-289 | the loop adds exactly the fresh ids, each of them returned |
| FoodAdmin.ReconcileTargetIds | app/Http/Controllers/FoodController.php:272-280 | an entry naming an existing size returns that id |
| FoodAdmin.ReconcileFreshRange | app/Http/Controllers/FoodController.php:283-289 | any other entry returns a fresh id |
| FoodAdmin.ReconcileFreshAscending | app/Http/Controllers/FoodController.php:283-289 | fresh ids ascend in entry order |
| FoodAdmin.ReconcileUnreached | app/Http/Controllers/FoodController.php:271-291 | rows no entry reached are unchanged, and no row changes food |
| FoodAdmin.ReconcileRows | app/Http/Controllers/FoodController.php:271-291 | the row of each id holds the last entry that wrote it, with its sort order or index |
| FoodAdmin.ReviseFood | app/Http/Controllers/FoodController.php:253-325 | an update either succeeds or rolls back with the general message |
| FoodAdmin.UpdateOutcome | app/Http/Controllers/FoodController.php:237-326 | an unknown food is not found; a known one is rejected with its errors exactly when unacceptable; the tables change only on success |
| FoodAdmin.RevisedParts | app/Http/Controllers/FoodController.php:257-297 | an update is the food row update, the loop, then the deletion of existing ids not returned |
| FoodAdmin.ReconcileFacts | app/Http/Controllers/FoodController.php:266-291 | the loop's frame, fresh ids, target ids, untouched rows and written rows together |
| FoodAdmin.UpdateKeepsOthers | app/Http/Controllers/FoodController.php:257-264 | an update rewrites the food's row and touches no other food's sizes, no user, order or item |
| FoodAdmin.UpdateInPlace | app/Http/Controllers/FoodController.php:272-280 | an entry with an existing size's id, not repeated later, leaves that row holding the entry |
| FoodAdmin.UpdateCreates | app/Http/Controllers/FoodController.php:281-289 | an entry without such an id leaves a new row holding it |
| FoodAdmin.UpdateDeletesUnsubmitted | app/Http/Controllers/FoodController.php:293-297 | an existing size no entry names is deleted |
| FoodAdmin.UpdateRowsAreReached | app/Http/Controllers/FoodController.php:266-297 | after an update the food's sizes are exactly the ids the loop returned |
| FoodAdmin.RevisedRowsReached | app/Http/Controllers/FoodController.php:293-297 | every remaining size of the food was returned by the loop |
| FoodAdmin.ReachedRowsRemain | app/Http/Controllers/FoodController.php:293-297 | every id the loop returned remains |
| FoodAdmin.ReconciledRowsBelong | app/Http/Controllers/FoodController.php:271-291 | every id the loop returned is a size of the food |
| FoodAdmin.UpdateIdsDistinct | app/Http/Controllers/FoodController.php:271-291 | entries with distinct ids get distinct rows |
| FoodAdmin.TargetsAndFreshDistinct | app/Http/Controllers/FoodController.php:271-291 | distinct existing ids and fresh ids allocated above them never coincide |
| FoodAdmin.UpdateOneRowPerEntry | app/Http/Controllers/FoodController.php:266-297 | with distinct ids the food ends with exactly one size per entry |
| FoodAdmin.ReconcileKeepsConsistent | app/Http/Controllers/FoodController.php:271-291 | the update loop keeps every constraint |
| FoodAdmin.UpdateKeepsConsistent | app/Http/Controllers/FoodController.php:253-325 | updating keeps every constraint, whatever the outcome |
| FoodAdmin.TwoSizes | database/migrations/2025_12_04_223812_create_food_portion_sizes_table.php:14-23 | a food with sizes Large and Small is a consistent database |
| FoodAdmin.SwappedNamesRollBack | app/Http/Controllers/FoodController.php:272-280 | swapping the names of two sizes hits the unique key on the first update and rolls back |
| FoodAdmin.ReaddedNameRollsBack | app/Http/Controllers/FoodController.php:281-297 | replacing a size by a new entry of the same name rolls back, because deletion comes after creation |
| FoodAdmin.Store | app/Http/Controllers/FoodController.php:162-232 | the stored tables and the response are those of the create outcome |
| FoodAdmin.StoreOutcomeValid | app/Http/Controllers/FoodController.php:162-232 | a valid request is the create transaction on its validated values |
| FoodAdmin.CreatedFailure | app/Http/Controllers/FoodController.php:205-231 | a failing size insert rolls the create back with the general message |
| FoodAdmin.CreatedSuccess | app/Http/Controllers/FoodController.php:195-214 | when every size insert succeeds the food is created with its new id |
| FoodAdmin.Update | app/Http/Controllers/FoodController.php:237-326 | the stored tables and the response are those of the update outcome |
| FoodAdmin.UpdateOutcomeValid | app/Http/Controllers/FoodController.php:237-326 | a valid request for a known food is the update transaction on its validated values |
| NumberInput.SkipSpace | resources/js/components/edit-food-dialog.tsx:249 | leading white space is dropped, and only that |
| NumberInput.Digits | resources/js/components/edit-food-dialog.tsx:249 | the digit prefix is all digits and stops at the first non-digit |
| NumberInput.FractionValue | resources/js/components/edit-food-dialog.tsx:313 | a fraction's digits are worth between 0 and 1 |
| NumberInput.NoDigitIsZero | resources/js/components/edit-food-dialog.tsx:249 | a text without digits reads as 0 for both inputs |
| NumberInput.NatText | resources/js/components/edit-food-dialog.tsx:249 | a number's decimal text is non-empty digits |
| NumberInput.NatTextValue | resources/js/components/edit-food-dialog.tsx:249 | a number's decimal text reads back as it, without a leading zero |
| NumberInput.IntMagnitudeOfNumeral | resources/js/components/edit-food-dialog.tsx:249 | the digits of a number's text, followed by nothing or by a non-digit other than `x`, read as that number |
| NumberInput.FloatMagnitudeOfDecimal | resources/js/components/edit-food-dialog.tsx:313 | the digits of `whole.fraction` read as whole plus the fraction's value |
| NumberInput.IntOrZeroReadsNumeral | resources/js/components/edit-food-dialog.tsx:249 | the sort-order input reads an integer's text, followed by nothing or by a non-digit other than `x`, as that integer |
| NumberInput.FloatOrZeroReadsDecimal | resources/js/components/edit-food-dialog.tsx:313 | the price input reads `whole.fraction` as its value |
| NumberInput.FloatOrZeroReadsWhole | resources/js/components/edit-food-dialog.tsx:313 | the price input reads a whole number's text as it |
| NumberInput.ExponentApplies | resources/js/components/edit-food-dialog.tsx:313 | `1.5e3` reads as 1500 as a price and as 1 as a sort order |
| NumberInput.FloatMagnitudeWithExponent | resources/js/components/edit-food-dialog.tsx:313 | `1.5e3` has magnitude 1500 |
| FormState.ClearedErrorLookup | resources/js/components/checkout-dialog.tsx:109-118 | a change removes its field's error, when it shows one, and keeps every other error |
| FormState.OrEmpty | resources/js/components/edit-food-dialog.tsx:60-61 | a null value shows as empty text |
| FormState.ReceivedOrEmpty | app/Http/Controllers/FoodController.php:259-260 | a value shown as text and sent back arrives as it was, unless it was empty text |
| FormState.Received | app/Http/Controllers/FoodController.php:197 | empty text arrives as null, other text as sent |
| FormState.FirstMessage | resources/js/components/checkout-dialog.tsx:88-90 | an error list shows its first message; a single message shows as is |
| FormState.FormatErrors | resources/js/components/checkout-dialog.tsx:84-92 | the formatting loop returns the formatted errors |
| FormState.FormattedLookup | resources/js/components/checkout-dialog.tsx:86-91 | each field shows the first message of its errors, and no other field has one |
| FormState.FormattedAbsent | resources/js/components/checkout-dialog.tsx:86-91 | a field without errors gets none |
| FormState.FailureErrors | resources/js/components/checkout-dialog.tsx:83-95 | a failed reply shows its formatted errors, else its message as the general error, else the fallback |
| FormState.RemovedAtMeaning | resources/js/components/edit-food-dialog.tsx:149-154 | removing at an index drops that element, and an index out of range changes nothing |
| FormState.UpdatedAt | resources/js/components/edit-food-dialog.tsx:156-163 | updating at an index changes only that element; out of range nothing |
| Cart.FindLine | resources/js/lib/cart-store.ts:25-27 | the line found is the first with the same name and size, or none |
| Cart.AddToExistingLine | resources/js/lib/cart-store.ts:28-33 | adding a product already in the cart raises that line's quantity and changes nothing else |
| Cart.AddNewLine | resources/js/lib/cart-store.ts:35-36 | adding a new product appends a line with id `name:size:token` |
| Cart.AddedTotal | resources/js/lib/cart-store.ts:23-37 | adding raises the total by the matched line's price (or the new line's) times the quantity added |
| Cart.TotalQuantityAt | resources/js/lib/cart-store.ts:44 | raising one line's quantity raises the total by its price times the change |
| Cart.TotalUpdateAt | resources/js/lib/cart-store.ts:44 | replacing one line moves the total by the difference of the two line totals |
| Cart.QuantitySetUnknownId | resources/js/lib/cart-store.ts:38-41 | setting the quantity of an unknown id changes nothing |
| Cart.QuantitySetOneLine | resources/js/lib/cart-store.ts:38-41 | setting a quantity changes exactly the line with that id |
| Cart.QuantitySetTotal | resources/js/lib/cart-store.ts:38-44 | setting a quantity moves the total by the price times the change |
| Cart.RemovedUnknownId | resources/js/lib/cart-store.ts:42 | removing an unknown id changes nothing |
| Cart.RemovedExactly | resources/js/lib/cart-store.ts:42 | removing drops exactly the line with that id |
| Cart.RemovedLastLine | resources/js/lib/cart-store.ts:42 | removing the id of the last line, carried by no other, drops exactly that line |
| Cart.AddedKeepsUnique | resources/js/lib/cart-store.ts:23-37 | adding keeps one line per name and size |
| Cart.QuantitySetKeepsUnique | resources/js/lib/cart-store.ts:38-41 | setting a quantity keeps one line per name and size |
| Cart.RemovedKeepsUnique | resources/js/lib/cart-store.ts:42 | removing keeps one line per name and size |
| Cart.AddedKeepsIdsDistinct | resources/js/lib/cart-store.ts:35 | adding with a fresh id keeps line ids distinct |
| Cart.RemovedKeepsIdsDistinct | resources/js/lib/cart-store.ts:42 | removing keeps line ids distinct |
| Cart.RunKeepsUnique | resources/js/lib/cart-store.ts:21-45 | any run of store actions keeps one line per name and size |
| Cart.FromEmptyUnique | resources/js/lib/cart-store.ts:22 | a cart built from empty never has two lines for one product |
| Cart.TotalAppend | resources/js/lib/cart-store.ts:44 | the total of no lines is 0, of two runs the sum of their totals |
| Cart.CartStore.constructor | resources/js/lib/cart-store.ts:22 | the store starts empty |
| Cart.CartStore.AddItem | resources/js/lib/cart-store.ts:23-37 | `addItem` sets the lines to the added cart |
| Cart.CartStore.UpdateQuantity | resources/js/lib/cart-store.ts:38-41 | `updateQuantity` sets the quantity of the line with the id |
| Cart.CartStore.RemoveItem | resources/js/lib/cart-store.ts:42 | `removeItem` drops the line with the id |
| Cart.CartStore.Clear | resources/js/lib/cart-store.ts:43 | `clear` empties the cart |
| CartSheet.PressKeepsGood | resources/js/components/cart-sheet.tsx:25-47 | every button keeps each line's quantity at least 1 and its price non-negative |
| CartSheet.PressesKeepGood | resources/js/components/cart-sheet.tsx:25-47 | so does any run of button presses |
| CartSheet.MinusAtOneKeepsCart | resources/js/components/cart-sheet.tsx:31 | minus on a line of quantity 1 leaves the cart as it is |
| CartSheet.PlusChangesOneLine | resources/js/components/cart-sheet.tsx:33 | plus raises exactly that line by one and the total by its price |
| CartSheet.PlusSetsQuantity | resources/js/components/cart-sheet.tsx:33 | plus sets the line's quantity to one more |
| CartSheet.PlusTotal | resources/js/components/cart-sheet.tsx:33 | plus raises the total by the line's price |
| CartSheet.MinusChangesOneLine | resources/js/components/cart-sheet.tsx:31 | minus above 1 lowers exactly that line by one and the total by its price |
| CartSheet.TrashRemovesLine | resources/js/components/cart-sheet.tsx:25 | trash drops exactly that line |
| AddToCart.FirstSize | resources/js/components/add-to-cart-dialog.tsx:21-22 | the first size is the first key, or empty without sizes |
| AddToCart.AddToCartDialog.constructor | resources/js/components/add-to-cart-dialog.tsx:20-23 | the dialog starts on the first size with quantity 1 |
| AddToCart.AddToCartDialog.Opened | resources/js/components/add-to-cart-dialog.tsx:27-33 | opening resets to the first size and quantity 1; closing keeps both |
| AddToCart.AddToCartDialog.SelectFirstIfNone | resources/js/components/add-to-cart-dialog.tsx:35-37 | with no size selected the first one is chosen |
| AddToCart.AddToCartDialog.Select | resources/js/components/add-to-cart-dialog.tsx:66 | a radio button selects its size |
| AddToCart.AddToCartDialog.Decrement | resources/js/components/add-to-cart-dialog.tsx:79 | minus lowers the quantity, never below 1 |
| AddToCart.AddToCartDialog.Increment | resources/js/components/add-to-cart-dialog.tsx:83 | plus raises the quantity by one |
| AddToCart.AddToCartDialog.Base | resources/js/components/add-to-cart-dialog.tsx:39 | the unit price is the selected size's price, or 0 without a selection |
| AddToCart.AddToCartDialog.AddTo | resources/js/components/add-to-cart-dialog.tsx:93-97 | without a size nothing happens; otherwise the line is added to the cart and the dialog closes |
| AddToCart.DialogLineIsGood | resources/js/components/add-to-cart-dialog.tsx:95 | the line the dialog adds has quantity at least 1 and a non-negative price |
| AddToCart.OpenedShowsFirstPrice | resources/js/components/add-to-cart-dialog.tsx:39-40 | on opening the shown total is the first size's price |
| Checkout.With | resources/js/components/checkout-dialog.tsx:110 | a change sets its field and keeps every other |
| Checkout.InitialForm | resources/js/components/checkout-dialog.tsx:23-34 | the form starts as pickup, blank except the signed-in user's name, email and phone |
| Checkout.Prefilled | resources/js/components/checkout-dialog.tsx:39-48 | opening for a signed-in user refreshes name, email and phone and keeps the rest |
| Checkout.Payload | resources/js/components/checkout-dialog.tsx:71-76 | the body carries each cart line's name, size, quantity and price, in order |
| Checkout.PayloadSubtotal | resources/js/components/checkout-dialog.tsx:50 | the cart total is the subtotal the server computes from the body |
| Checkout.ShownAmountsAreServerAmounts | resources/js/components/checkout-dialog.tsx:50-53 | the amounts the dialog shows are the amounts the server stores for the order |
| Checkout.CartPassesItemRules | resources/js/components/checkout-dialog.tsx:71-76 | a non-empty cart of good lines passes every item rule |
| Checkout.SelectedTypePasses | resources/js/components/checkout-dialog.tsx:24 | a type chosen from the select passes the type rule |
| Checkout.CheckoutDialog.constructor | resources/js/components/checkout-dialog.tsx:23-37 | the dialog starts with the initial form, no errors, not processing |
| Checkout.CheckoutDialog.Opened | resources/js/components/checkout-dialog.tsx:39-48 | opening for a signed-in user prefills; otherwise nothing changes |
| Checkout.CheckoutDialog.HandleChange | resources/js/components/checkout-dialog.tsx:109-118 | a change sets the field and clears its error |
| Checkout.CheckoutDialog.SubmitDisabled | resources/js/components/checkout-dialog.tsx:313 | the button is disabled while a request runs or for an empty cart; its meaning is stated in DisabledIffEmptyCart |
| Checkout.DisabledIffEmptyCart | resources/js/components/checkout-dialog.tsx:313 | with no request running, the button is disabled exactly when the body it would send fails the controller's `items` rule |
| Checkout.CheckoutDialog.Submit | resources/js/components/checkout-dialog.tsx:55-107 | the body is the cart and the form; a thrown request shows the network error, a failed one its errors, a success closes with the order number |
| FoodForms.Changed | resources/js/pages/dashboard/foods/create.tsx:139-198 | a field input sets that field, the sort order read with `parseInt`, 0 when that gives NaN, and keeps the rest |
| FoodForms.AddedEntry | resources/js/components/edit-food-dialog.tsx:139-147 | "Add size" appends an empty entry at price 0 whose sort order is the number of entries before it |
| FoodForms.SizesUpdated | resources/js/components/edit-food-dialog.tsx:156-163 | an entry input changes only that entry's name, or its price read with `parseFloat`, 0 when that gives NaN |
| FoodForms.SizesRemoved | resources/js/components/edit-food-dialog.tsx:149-154 | trash drops that entry; an index out of range changes nothing |
| FoodForms.AddsNumberEntries | resources/js/pages/dashboard/foods/create.tsx:72-77 | entries added to an empty list are numbered 0, 1, 2, ... |
| FoodForms.RemovalRepeatsSortOrder | resources/js/pages/dashboard/foods/create.tsx:72-84 | add, add, remove the first, add leaves two entries with sort order 1 |
| FoodForms.EntryOpsKeepSortOrdersNatural | resources/js/pages/dashboard/foods/create.tsx:72-93 | adding, removing and updating entries never make a sort order negative |
| FoodForms.InputOf | resources/js/pages/dashboard/foods/create.tsx:95-102 | the request carries one size per entry, in order |
| FoodForms.EntryRules | app/Http/Controllers/FoodController.php:172-174 | a submitted entry's name fails exactly when empty or over 255 characters, its price exactly when negative, its sort order never |
| FoodForms.FieldRules | app/Http/Controllers/FoodController.php:165-171 | name and category fail exactly when empty or over 255 characters, sort order when negative, the sizes when there are none |
| FoodForms.EntryErrorsHidden | resources/js/pages/dashboard/foods/create.tsx:286-287 | no form shows an error of a single entry |
| CreateFood.CreateFoodPage.constructor | resources/js/pages/dashboard/foods/create.tsx:42-50 | the page starts with the empty form, no file, no preview, no errors |
| CreateFood.CreateFoodPage.SetData | resources/js/pages/dashboard/foods/create.tsx:139-198 | `setData` changes one field and nothing else |
| CreateFood.CreateFoodPage.ImageChosen | resources/js/pages/dashboard/foods/create.tsx:54-65 | a chosen file replaces the current one; no file changes nothing |
| CreateFood.CreateFoodPage.PreviewRead | resources/js/pages/dashboard/foods/create.tsx:58-62 | the read data URL becomes the preview |
| CreateFood.CreateFoodPage.RemoveImage | resources/js/pages/dashboard/foods/create.tsx:67-70 | removing the image clears file and preview |
| CreateFood.CreateFoodPage.AddSize | resources/js/pages/dashboard/foods/create.tsx:72-77 | "Add size" appends the numbered empty entry |
| CreateFood.CreateFoodPage.RemoveSize | resources/js/pages/dashboard/foods/create.tsx:79-84 | trash drops that entry |
| CreateFood.CreateFoodPage.UpdateSize | resources/js/pages/dashboard/foods/create.tsx:86-93 | an entry input updates that entry |
| CreateFood.CreateFoodPage.Submit | resources/js/pages/dashboard/foods/create.tsx:95-102 | the form and file are posted; a redirect clears errors and visits the foods list, errors sent back are shown |
| CreateFood.CreateFoodPage.SubmitEnabled | resources/js/pages/dashboard/foods/create.tsx:373 | the button is enabled when no request runs and the form has a size, a name and a category; its meaning is stated in EnabledIffRequiredPresent |
| CreateFood.EnabledIffRequiredPresent | resources/js/pages/dashboard/foods/create.tsx:373 | with no request running, the page's button is enabled exactly when the request it sends fails neither the size-list rule nor the required rule of name or category |
| CreateFood.EnabledNameCanFail | resources/js/pages/dashboard/foods/create.tsx:373 | a 256-character name passes the guard and fails the name rule |
| CreateFood.GeneralErrorHidden | resources/js/pages/dashboard/foods/create.tsx:143-358 | the page has no place for the `general` error the controller sends on rollback |
| CreateFood.CreatedFromForm | app/Http/Controllers/FoodController.php:195-212 | a created food stores the form's fields (blank description as null), the image path, and one size row per entry in order with its name, price and sort order or index |
| EditFood.FormOf | resources/js/components/edit-food-dialog.tsx:58-71 | the form loads the food's fields, a null description as empty text, and one entry per size with the row's id and sort order 0 |
| EditFood.EditFoodDialog.constructor | resources/js/components/edit-food-dialog.tsx:42-53 | the dialog starts with the empty form, no errors, not processing |
| EditFood.EditFoodDialog.Opened | resources/js/components/edit-food-dialog.tsx:56-79 | opening with a food loads it and resets errors and processing; closing resets only those |
| EditFood.EditFoodDialog.HandleChange | resources/js/components/edit-food-dialog.tsx:128-137 | a field input sets the field and clears its error |
| EditFood.EditFoodDialog.HandleImageChange | resources/js/components/edit-food-dialog.tsx:128-137 | the image path input sets the path and clears its error |
| EditFood.EditFoodDialog.AddSize | resources/js/components/edit-food-dialog.tsx:139-147 | "Add size" appends the numbered empty entry |
| EditFood.EditFoodDialog.RemoveSize | resources/js/components/edit-food-dialog.tsx:149-154 | trash drops that entry |
| EditFood.EditFoodDialog.UpdateSize | resources/js/components/edit-food-dialog.tsx:156-163 | an entry input updates that entry and clears no error |
| EditFood.EditFoodDialog.SubmitDisabled | resources/js/components/edit-food-dialog.tsx:352 | the button is disabled while a request runs or without sizes; its meaning is stated in DisabledIffNoSizes |
| EditFood.DisabledIffNoSizes | resources/js/components/edit-food-dialog.tsx:352 | with no request running, the button is disabled exactly when the body it would send fails the controller's size-list rule |
| EditFood.EditFoodDialog.Submit | resources/js/components/edit-food-dialog.tsx:81-126 | without a food nothing happens; otherwise the form goes to the food's endpoint, a thrown request shows the network error, a failed one its errors or message, a success closes the dialog |
| EditFood.UnchangedSaveKeepsFood | app/Http/Controllers/FoodController.php:257-264 | saving a loaded food unchanged rewrites its own row, and every entry names its size row |
| EditFood.LoadedSizesSortFirst | resources/js/components/edit-food-dialog.tsx:69 | every loaded size is saved with sort order 0 |
| EditFood.AddedSizeSortOrder | app/Http/Controllers/FoodController.php:283-288 | an entry added after `n` entries and named is saved as a new row with sort order `n` |
| Menu.Tagged | resources/js/pages/index.tsx:52-54 | each item of a group is tagged with the group's category |
| Menu.FilteredFoods | resources/js/pages/index.tsx:46-57 | no groups give no rows; otherwise the rows are every group's items, tagged, filtered by the selection |
| Menu.RowsAppend | resources/js/pages/index.tsx:50-55 | the rows keep the group order |
| Menu.TaggedSelection | resources/js/pages/index.tsx:56 | a group's tagged rows are all shown for its category and none for another |
| Menu.SelectedIsGroup | resources/js/pages/index.tsx:46-57 | a category button shows exactly its group, tagged, and nothing for a category without one |
| Menu.TaggedKeeps | resources/js/pages/index.tsx:53 | tagging items that carry the category already changes nothing |
| Menu.IndexLookup | app/Http/Controllers/FoodController.php:30 | the menu holds each category's rows under its own key |
| Menu.IndexCategoryCarriesIt | app/Http/Controllers/FoodController.php:30-40 | the foods of a category's group carry that category |
| Menu.GroupCarriesCategory | app/Http/Controllers/FoodController.php:30-40 | the mapped rows of a category all carry that category |
| Menu.IndexPageCategory | resources/js/pages/index.tsx:56 | on the home page a category button shows the active foods of that category in the order the server sends them |
| Menu.PrimaryPrice | resources/js/pages/welcome.tsx:25-28 | 0 without sizes, otherwise the price of the size the card's dialog selects first |
| Menu.CardPriceIsDialogPrice | resources/js/pages/welcome.tsx:25-28 | on the welcome and dashboard pages, whose prices are numbers, a card's price is the total its dialog shows on opening |
| Menu.HomeShowsCartButton | resources/js/pages/index.tsx:146 | the home page's floating cart button shows when a row is shown, a card was opened and the cart is not empty; used by AddShowsCartButton |
| Menu.AddShowsCartButton | resources/js/pages/index.tsx:146-148 | after adding from an opened card the floating cart button shows while a row is shown |
| Menu.MenuPage.constructor | resources/js/pages/index.tsx:33-35 | the page starts on "All" with no dialog food |
| Menu.MenuPage.Buttons | resources/js/pages/index.tsx:79-93 | the buttons are "All", then the categories in key order |
| Menu.MenuPage.Select | resources/js/pages/index.tsx:88 | a button selects its category |
| Menu.MenuPage.OpenCard | resources/js/pages/index.tsx:103 | a card click opens its dialog |
| Menu.MenuPage.DialogOpenChange | resources/js/pages/index.tsx:141 | the dialog's open state follows it; the food stays |
| FoodsPage.CategoryGroups | resources/js/pages/dashboard/foods.tsx:91-99 | the object has one entry per category |
| FoodsPage.PushedListed | resources/js/pages/dashboard/foods.tsx:97 | a push onto a listed category appends to its list in place |
| FoodsPage.PushedNew | resources/js/pages/dashboard/foods.tsx:94-97 | a push onto a new category adds its list at the end |
| FoodsPage.GroupsStep | resources/js/pages/dashboard/foods.tsx:93-98 | the grouping of one more food extends its category or adds it |
| FoodsPage.PushedIsAdd | resources/js/pages/dashboard/foods.tsx:93-98 | one push on the grouping is the grouping with the food added |
| FoodsPage.FoodsByCategory | resources/js/pages/dashboard/foods.tsx:91-99 | the loop returns the foods grouped by category |
| FoodsPage.CategoryGroupsShape | resources/js/pages/dashboard/foods.tsx:91-99 | each category appears once with exactly its foods in list order, no card is empty, and every food has a card |
| FoodsPage.CategoryGroupsFilters | resources/js/pages/dashboard/foods.tsx:91-99 | each card holds exactly its category's foods in list order and is never empty |
| FoodsPage.CategoryGroupsCover | resources/js/pages/dashboard/foods.tsx:91-99 | every food's category has a card |
| FoodsPage.SortedCardsAscend | resources/js/pages/dashboard/foods.tsx:91-99 | foods in sorted row order give cards in ascending category order |
| FoodsPage.CardsInCategoryOrder | resources/js/pages/dashboard/foods.tsx:91-99 | the cards come in ascending category order |
| FoodsPage.Requested | resources/js/pages/dashboard/foods.tsx:72-80 | a filter change sets that filter and keeps the other |
| FoodsPage.ParamOf | resources/js/pages/dashboard/foods.tsx:73-76 | a filter is sent as text, or empty when null or empty |
| FoodsPage.ReloadEchoesFilters | resources/js/pages/dashboard/foods.tsx:72-80 | the reloaded page echoes the filters asked for |
| FoodsPage.NullCategoryListsNothing | resources/js/pages/dashboard/foods.tsx:72-80 | with a null category filter, a status change reloads an empty page |
| FoodsPage.FoodsPageState.constructor | resources/js/pages/dashboard/foods.tsx:61-62 | no food is selected and the dialog is closed |
| FoodsPage.FoodsPageState.HandleEdit | resources/js/pages/dashboard/foods.tsx:82-85 | edit selects the food and opens the dialog |
| FoodsPage.FoodsPageState.EditOpenChange | resources/js/pages/dashboard/foods.tsx:275 | the dialog's open state follows it; the food stays selected |

## Left out

- Email: the mails are attempts whose delivery is a parameter. A failed mail is swallowed. Templates and transport are not modelled.
- Randomness and the clock: `Str::random(8)`, the hashed random password, `crypto.randomUUID`, `time()`/`uniqid()` and `date('Ymd')` are parameters.
- Email format and date parsing (`email`, `date` rules): predicates given as parameters.
- Floating point: money and parsed numbers are exact reals. JavaScript's rounding, `toFixed(2)`, `Infinity` and overflow of `parseFloat` are not modelled.
- `NumberInput.IsSpace` skips tab, line feed, vertical tab, form feed, carriage return, space, U+00A0, U+2028, U+2029 and U+FEFF before a number. The other Unicode space separators that `parseInt` and `parseFloat` also skip (U+1680, U+2000 to U+200A, U+202F, U+205F and U+3000) are not modelled.
- Order item with an unknown food name: the code writes a null `food_id` into a NOT NULL column, so the insert fails, the transaction rolls back and the reply is 500. The null-safe `$food?->id` (app/Http/Controllers/OrderController.php:116) suggests a missing food is tolerated, but `food_id` is NOT NULL (database/migrations/2025_12_04_224356_create_order_items_table.php:17). The model follows the code (`OrderPlacement.UnknownFoodRollsBack`).
- Pricing.ComputeAmounts: amounts are not rounded to cents before writing. Rounding to two decimals by the `decimal:2` casts is a separate function, `Pricing.StoredAmounts`.
- Database collation and ties: the database compares strings by character code, for equality as well as order (SQLite's default). This covers the user lookup by email, the food lookup by name, the unique (food_id, size_name) key, the status and type filters of the orders list and the order of categories. A case-insensitive collation such as MySQL's utf8mb4_unicode_ci would match "Bob@x.com" to a stored "bob@x.com" and reject "small" beside "Small"; that is not modelled. `ORDER BY` names only category and sort order; the model breaks ties by id, the order in which the table lists rows (`FoodListing.QueryTiesInIdOrder`), and relations list rows in id order. A database may return tied rows in another order.
- Column widths and ranges: `string` columns (VARCHAR(255)), the 32-bit `integer` quantity and the `decimal(10,2)` range below 10^8 are not enforced, as SQLite does not enforce them. A strict MySQL server would refuse, for example, a 256-character size name, a quantity of 2147483648 or a unit price of 1e8, and the order would roll back with a 500; `OrderPlacement.Place` places it.
- `orderBy('created_at', 'desc')`, pagination and the formatted times of the orders list: left out. Timestamps are not modelled.
- `show` actions, `byCategory`, the customers and dashboard reports: presentation or reporting outside this model.
- Validation messages: the model names the failing attributes, not Laravel's message texts. Type mismatches (`string`, `integer`, `numeric`, `boolean` on wrong types) are not modelled, because requests are typed.
- Image upload on create: the `image` file rule, moving the file, the public directory and the unlink after a failure are left out. The stored path is a parameter.
- Inertia: the multipart encoding of the create form (booleans and numbers as strings) is not modelled. Nor are its network errors or the exact timing of `processing` and `errors`; the create reply is a parameter.
- Browser constraint validation (`required`, `min`, `type=email`) is not modelled: it depends on the browser.
- `TrimStrings` is not modelled; only `ConvertEmptyStringsToNull` is. Laravel trims every request string, so a whitespace-only `customer_name`, `items.*.name`, `name` or `size_name` fails `required` there but passes in the model.
- Error values: a field whose error list is empty is treated as showing no error.
- JavaScript objects: records keep insertion order. Integer-like keys, which JavaScript orders first, and the `constructor` prototype key are not modelled.
- Menu pages: a category literally named "All" is not modelled. `foods[category] || []` is read as the group itself, because keys come from `Object.keys`.
- Menu.CardPriceIsDialogPrice: holds only for numeric prices, as on the welcome and dashboard pages. On the home page the prices are `decimal:2` strings, so the card shows 0 while the dialog shows the price.
- Menu.PrimaryPrice: reads the first price as a number. The server sends `decimal:2` prices as strings, for which `getPrimaryPrice` returns 0; that conversion is not modelled.
- The welcome and dashboard pages take a fixed list of foods: it is a parameter of the same shape as the home page's groups.
- Dialog props (`name`, `portion_sizes`, `food`) are fixed per instance. A prop change without reopening is not modelled.
- `router.reload` after a successful edit and the checkbox's `indeterminate` value are not modelled.
- The image preview from `FileReader` is a parameter.
- Concurrency between requests is not modelled: each transaction runs alone.
