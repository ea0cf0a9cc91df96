# malca-time in Dafny

malca-time is a food pre-ordering app for restaurants: customers browse a restaurant's menu, fill a cart, pick a pickup time inside the opening hours and place an order; the restaurant's administrators edit the menu and the discounts, advance orders through their states and read sales analytics. An order confirmation e-mail lists each line with its discount.

This project models the app's logic beneath the user interface and the database, one Dafny module per source file:

- `WorkingHours`: whether the restaurant is open, the ten-minute pickup slots offered, and the ordering status.
- `Discounts`: the discounted price and the discount lookup.
- `OrderConfirmation`: the confirmation e-mail's reconstruction of the original price and its line totals.
- `CartContext` and `UseCart`: the two carts.
- `OrderService`: order creation and the attachment of discounts to fetched orders.
- `AdminOrders`: the order-state sequence, the order board's filter and its tabs.
- `AdminMenu`: the menu editor.
- `DiscountManager`: the discount editor.
- `Analytics`: the analytics aggregation.
- `RestaurantData`: the restaurant settings.
- `Security`: the validators, the password strength score, the login limiter and the security event log.
- `MenuPage`: the customer's menu page.
- `ImageUpload`: the image upload's checks.
- `AuthForms`, `RegisterPage`, `LoginPage`, `ForgotPasswordPage` and `ResetPasswordPage`: the form validation of the four sign-in pages.
- `Common`: the dish record both menu pages share, and JavaScript's `trim`, `toLowerCase` and `parseFloat`, restricted as said below.

Pure code is modelled as functions with lemmas. State that the source replaces step by step becomes a class whose methods are proved against those functions. This covers the carts, the editors, the order board, the login limiter, the event log and the form pages. Loops stay loops: the pickup-slot `while`, the analytics `forEach` accumulations and the `for` loop that adds a dish to the cart as many times as its counter says. The password checks, a sequence of `if`s in the source, are a sequence of `if`s here too. `Array.prototype.sort` is modelled as a stable insertion sort.

Money is an exact `real`. Instants are whole seconds, or milliseconds where the source uses `Date.now()`. Database replies, the clock, storage answers and generated ids are parameters.

## Model

| member | source | states |
|---|---|---|
| WorkingHours.TruncateClock | src/utils/workingHours.ts:18 | a 5-character time passes unchanged and a longer one is cut to its first five characters ("HH:mm") |
| WorkingHours.ParseClock | src/utils/workingHours.ts:20-21 | one or two hour digits, a colon, one or two minute digits and then only whitespace, with hour < 24 and minute < 60, read as that whole minute of the day; anything else is an invalid date |
| WorkingHours.FieldLength | src/utils/workingHours.ts:20-21 | an `HH` or `mm` field is the one or two leading digits, stopping before a third digit |
| WorkingHours.FieldValue | src/utils/workingHours.ts:20-21 | a one-digit field is below 10, a two-digit one below 100 |
| WorkingHours.ParseTwoDigitFields | src/utils/workingHours.ts:20-21 | a two-digit "HH:mm" text reads as its hour and minute, or as an invalid date when the hour exceeds 23 or the minute 59 |
| WorkingHours.ShortFields | src/utils/workingHours.ts:18-21 | "8:00" reads as 08:00 and "08:5" as 08:05 |
| WorkingHours.InvalidClocks | src/utils/workingHours.ts:18-21 | "8:00:00" is cut to "8:00:" and is an invalid date, as is "24:00" |
| WorkingHours.ClockOf | src/utils/workingHours.ts:18-21 | the time a restaurant string names, after the cut to five characters, is a whole minute of the day or an invalid date |
| WorkingHours.OpenIffStrictlyInside | src/utils/workingHours.ts:9-24 | `IsRestaurantOpen` holds exactly when both times parse and opening < now < closing, strictly |
| WorkingHours.ClosedAtBothBoundaries | src/utils/workingHours.ts:23 | the restaurant is closed at exactly the opening and at exactly the closing instant |
| WorkingHours.RoundUpToTenMinutes | src/utils/workingHours.ts:48-52 | the minute field is rounded up to a multiple of ten and the seconds dropped: the result is the smallest ten-minute mark at or after the whole minute |
| WorkingHours.RoundUpFacts | src/utils/workingHours.ts:48-52 | the hour plus the minute field rounded up to ten is a ten-minute mark, not before the whole-minute part and less than ten minutes after it |
| WorkingHours.SlotStart | src/utils/workingHours.ts:42-52 | the first candidate slot is a ten-minute mark, at or after opening, and at most 59 seconds before now + 30 minutes |
| WorkingHours.TwoDigits | src/utils/workingHours.ts:59-60 | the zero-padded two-digit field reads back as its number |
| WorkingHours.ClockLabel | src/utils/workingHours.ts:59-60 | the "HH:mm" label is five characters with a colon in the middle |
| WorkingHours.RenderSlots | src/utils/workingHours.ts:59-66 | one slot per instant |
| WorkingHours.RenderedSlots | src/utils/workingHours.ts:59-66 | each slot is its instant's label as value and label, not disabled, in instant order |
| WorkingHours.SlotInstantsAt | src/utils/workingHours.ts:58-69 | the i-th slot is start + 10·i minutes and lies strictly before closing |
| WorkingHours.SlotInstantsShape | src/utils/workingHours.ts:58-69 | `SlotInstants` ascends in exact ten-minute steps from the start and every slot lies before closing |
| WorkingHours.SlotInstantsComplete | src/utils/workingHours.ts:58-69 | no ten-minute step before closing is skipped |
| WorkingHours.RenderSlotsStep | src/utils/workingHours.ts:58-69 | one loop iteration pushes the current slot's rendering and leaves the rest to the following iterations |
| WorkingHours.PushSlots | src/utils/workingHours.ts:54-71 | the `while` loop returns exactly the rendered ten-minute instants from the start up to closing |
| WorkingHours.GetAvailablePickupTimes | src/utils/workingHours.ts:26-72 | the returned slots are the rendering of the pickup instants; none when either time does not parse |
| WorkingHours.PickupSlotsShape | src/utils/workingHours.ts:38-69 | every instant of `PickupInstants` is at or after opening, strictly before closing, a ten-minute mark, and after now + 29 minutes; slots are ten minutes apart |
| WorkingHours.PickupSlotsFirstAndComplete | src/utils/workingHours.ts:45-69 | the first slot is the rounded start, and every ten-minute step from it before closing is offered |
| WorkingHours.NoOvernightSpan | src/utils/workingHours.ts:23-58 | with closing not after opening the restaurant is never open and no slot is offered |
| WorkingHours.ClockLabelRoundTrip | src/utils/workingHours.ts:59-60 | a whole-minute instant's label parses back to the same instant, and a ten-minute mark's label ends in 0 |
| WorkingHours.ClockParts | src/utils/workingHours.ts:59-60 | the hour and minute fields of a whole-minute instant rebuild it, and a ten-minute mark has a minute divisible by ten |
| WorkingHours.PickupLabelsRoundTrip | src/utils/workingHours.ts:59-66 | every offered slot's value parses back to its instant and ends in a 0 minute digit |
| WorkingHours.CanOrderFromRestaurant | src/utils/workingHours.ts:74-90 | ordering is allowed, without a reason, exactly when some pickup slot is left; otherwise the fixed reason is given |
| WorkingHours.GetOrderingStatus | src/utils/workingHours.ts:92-117 | 'closed' iff not open; 'closing_soon' iff open and strictly after closing − 60 min; 'open' otherwise (exactly 60 minutes before closing is 'open') |
| WorkingHours.OrderableBeforeOpening | src/utils/workingHours.ts:80-89 | before opening time the restaurant is closed yet pickup slots are offered, so ordering is allowed |
| WorkingHours.EveningClocks | src/utils/workingHours.ts:18-21 | the stored times "08:00:00" and "20:00:00" read as 08:00 and 20:00 |
| WorkingHours.EveningExample | src/utils/workingHours.ts:26-117 | any opening time reading as 08:00 and closing time reading as 20:00, now 19:05: open, closing soon, and slots at 19:40 and 19:50 only |
| WorkingHours.EveningLabels | src/utils/workingHours.ts:59-60 | the instants of those two slots are labelled "19:40" and "19:50" |
| Discounts.CalculateDiscountedPrice | src/hooks/useDiscounts.ts:46-52 | 'procent' takes v % off without clamping; any other kind gives max(0, price − v), never negative |
| Discounts.PercentOverHundredNegative | src/hooks/useDiscounts.ts:47-48 | a percentage above 100 on a positive price gives a negative price |
| Discounts.PercentWithinPrice | src/hooks/useDiscounts.ts:47-48 | for 0 ≤ v ≤ 100 and price ≥ 0 the result lies in [0, price]; v = 0 keeps the price |
| Discounts.FixedAmount | src/hooks/useDiscounts.ts:49-50 | a fixed amount with v ≤ price gives exactly price − v, and with v ≥ price gives 0 |
| Discounts.PriceIgnoresActiveAndDates | src/hooks/useDiscounts.ts:46-51 | neither the active flag nor the validity dates affect the price |
| Discounts.GetDiscountForFood | src/hooks/useDiscounts.ts:42-44 | none exactly when no discount names the dish; otherwise the first one in list order that does |
| Discounts.ActiveDiscounts | src/hooks/useDiscounts.ts:23-30 | the fetched list holds exactly the active rows |
| Discounts.LookupFindsFirstActive | src/hooks/useDiscounts.ts:24-44 | looking up in the fetched list gives `FirstActiveFor`: the first active row of the dish in table order |
| OrderConfirmation.OriginalUnitPrice | supabase/functions/send-order-confirmation/index.ts:91-96 | a percentage is undone by dividing by (1 − v/100), non-finite exactly at v = 100; a fixed amount by adding v |
| OrderConfirmation.LinePriceInfo | supabase/functions/send-order-confirmation/index.ts:84-108 | the payable total is always unit price × quantity (`Times`); the original total is shown exactly when a fetched discount names the line's dish, and is the reconstructed unit price × quantity, non-finite exactly when the reconstruction is |
| OrderConfirmation.FetchedFor | supabase/functions/send-order-confirmation/index.ts:58-63 | the fetched discounts are exactly the active rows of the order's dishes |
| OrderConfirmation.LineDiscountIsFirstActive | supabase/functions/send-order-confirmation/index.ts:59-86 | `LineDiscount` gives a line the first active discount of its dish in table order |
| OrderConfirmation.PercentReconstruction | supabase/functions/send-order-confirmation/index.ts:92-93 | for a percentage other than 100 the reconstruction inverts `calculateDiscountedPrice` exactly |
| OrderConfirmation.OriginalAboveStored | supabase/functions/send-order-confirmation/index.ts:92-93 | for 0 < v < 100 the reconstructed unit price exceeds the stored one |
| OrderConfirmation.FixedReconstruction | supabase/functions/send-order-confirmation/index.ts:94-95 | a fixed amount is inverted exactly when v ≤ price; for v > price the reconstruction yields v |
| OrderConfirmation.HundredPercentNonFinite | supabase/functions/send-order-confirmation/index.ts:93 | a 100 % discount divides by zero: no finite original price for any stored price |
| OrderConfirmation.LinePriceInfoCorrected | supabase/functions/send-order-confirmation/index.ts:84-108 | corrected cell: same payable total and same discount, with the dish's catalogue price × quantity as the always-finite original total |
| OrderConfirmation.CorrectedAgreesWhereDefined | supabase/functions/send-order-confirmation/index.ts:91-97 | where the stored price is the discounted one and the reconstruction can invert it, the corrected cell equals the written one; the corrected original total is always finite |
| CartContext.Incremented | src/contexts/CartContext.tsx:45-49 | the lines carrying the id gain one in quantity and nothing else; other lines and the length stay |
| CartContext.Removed | src/contexts/CartContext.tsx:56-58 | the filter keeps exactly the lines without that id, never more lines than before |
| CartContext.QuantitySet | src/contexts/CartContext.tsx:66-70 | the lines carrying the id get the new quantity; other lines and the length stay |
| CartContext.AddToCartEffect | src/contexts/CartContext.tsx:40-54 | `Added`: a new id is appended at the end with quantity 1; a known id raises only that line's quantity by 1, keeping its price and other fields, every other line and the length |
| CartContext.AddPreservesValid | src/contexts/CartContext.tsx:40-54 | `addToCart` keeps ids unique and every quantity ≥ 1 |
| CartContext.TotalItemsAppend | src/contexts/CartContext.tsx:77-83 | appending a line adds its quantity to the count (`TotalItems`) and its price × quantity to the total (`TotalPrice`) |
| CartContext.TotalsIncremented | src/contexts/CartContext.tsx:45-83 | raising the one line of an id adds 1 to the count and its unit price to the total |
| CartContext.TotalsUntouched | src/contexts/CartContext.tsx:45-49 | incrementing an id no line carries changes nothing |
| CartContext.OnlyLine | src/contexts/CartContext.tsx:40-54 | in a valid cart an id sits on exactly one line |
| CartContext.AddRaisesTotals | src/contexts/CartContext.tsx:40-83 | adding a known dish raises the item count by exactly 1 and the total by that line's price |
| CartContext.AddNewRaisesTotals | src/contexts/CartContext.tsx:52-83 | adding a new dish raises the item count by exactly 1 and the total by its price |
| CartContext.RemoveDropsLine | src/contexts/CartContext.tsx:56-58 | with unique ids, removing drops exactly that line and keeps the remaining lines in order |
| CartContext.RemoveAbsent | src/contexts/CartContext.tsx:56-58 | removing an id no line carries leaves the cart as it was |
| CartContext.RemovePreservesValid | src/contexts/CartContext.tsx:56-58 | removal keeps ids unique and quantities ≥ 1 |
| CartContext.UpdateQuantityEffect | src/contexts/CartContext.tsx:60-71 | `QuantityUpdated` with a quantity ≤ 0 is exactly `removeFromCart`; an unknown id changes nothing; the cart invariant is kept |
| CartContext.Cart.constructor | src/contexts/CartContext.tsx:38 | the cart starts empty |
| CartContext.Cart.AddToCart | src/contexts/CartContext.tsx:40-54 | the lines become `addToCart`'s result on the old lines |
| CartContext.Cart.RemoveFromCart | src/contexts/CartContext.tsx:56-58 | the lines become the old lines without that id |
| CartContext.Cart.UpdateQuantity | src/contexts/CartContext.tsx:60-71 | the lines become the old lines with the quantity set, or without the id for a quantity ≤ 0 |
| CartContext.Cart.ClearCart | src/contexts/CartContext.tsx:73-75 | the cart is empty and both totals are 0 |
| CartContext.Cart.GetTotals | src/contexts/CartContext.tsx:77-83 | Σ price × quantity and Σ quantity over the current lines; 0 for an empty cart |
| UseCart.FindIndex | src/hooks/useCart.ts:15 | the first position holding the dish id, or −1 when none does |
| UseCart.Overwritten | src/hooks/useCart.ts:33-41 | the entries of that dish get the new quantity and note (the note may become absent); others and the length stay |
| UseCart.Without | src/hooks/useCart.ts:43-45 | the filter keeps exactly the entries of other dishes |
| UseCart.UpdateKeepsEntries | src/hooks/useCart.ts:33-41 | updating never removes an entry, even for quantity 0: dishes and positions stay, and one entry per dish is kept |
| UseCart.RemovePreservesUnique | src/hooks/useCart.ts:43-45 | removal keeps one entry per dish and leaves none of the removed dish |
| UseCart.RemoveKeepsOrder | src/hooks/useCart.ts:43-45 | removal drops exactly that dish's entry and keeps the rest in order |
| UseCart.RemoveAbsent | src/hooks/useCart.ts:43-45 | removing a dish not in the cart changes nothing |
| UseCart.TotalItemsReplace | src/hooks/useCart.ts:20-57 | replacing one entry changes the item count by the difference of the quantities |
| UseCart.TotalsAppend | src/hooks/useCart.ts:28-57 | appending an entry adds its quantity to the item count (`TotalItems`) and its price × quantity to the total (`TotalPrice`) |
| UseCart.ShoppingCart.constructor | src/hooks/useCart.ts:11 | the cart starts empty |
| UseCart.ShoppingCart.AddToCart | src/hooks/useCart.ts:13-31 | a known dish is merged in place at its first position (`Merged`: quantity added, note replaced only by a truthy one, by `OrElse`) with the length unchanged; a new dish is appended; other entries stay; one entry per dish is kept; the item count rises by the quantity |
| UseCart.ShoppingCart.UpdateCartItem | src/hooks/useCart.ts:33-41 | the entries become the overwritten old entries |
| UseCart.ShoppingCart.RemoveFromCart | src/hooks/useCart.ts:43-45 | the entries become the old entries without that dish |
| UseCart.ShoppingCart.ClearCart | src/hooks/useCart.ts:47-49 | the cart is empty and both totals are 0 |
| OrderService.SumFromIsTotal | src/services/orderService.ts:61 | the `reduce` behind `skupna_cena` (`SumFrom`) equals the cart's `getTotalPrice` |
| OrderService.OrderLines | src/services/orderService.ts:82-88 | one line per cart entry, in cart order, with the order's id, the entry's dish, quantity and note, and the dish's catalogue price |
| OrderService.CreateOrderEffect | src/services/orderService.ts:54-111 | `CreateOrder` inserts the order as 'novo' with the cart total and the given fields; lines are written only after the order insert succeeds, one per entry at the undiscounted price; an error of either insert is the outcome; the e-mail call's result never changes the outcome |
| OrderService.StoredPriceIsUndiscounted | src/services/orderService.ts:86 | as written: a 10.00 dish under an active 50 % discount is stored at 10.00, and the e-mail shows 20.00 struck through and charges 10.00 instead of 5.00 |
| OrderService.StoredPriceInflatesOriginal | src/services/orderService.ts:86 | as written, for any percentage in (0, 100) the e-mail's original total exceeds the catalogue total and the charged total is undiscounted |
| OrderService.OrderLinesDiscounted | src/services/orderService.ts:82-88 | corrected mapping: as `OrderLines`, but each line stores the dish's price after its first discount (`DiscountedUnitPrice`) |
| OrderService.DiscountedLinesRoundTrip | src/services/orderService.ts:82-88 | with corrected lines the e-mail charges the discounted price, shows no discount when there is none, and strikes through exactly the catalogue total wherever the discount is invertible |
| OrderService.AttachDiscounts | src/services/orderService.ts:29-49 | when some order has a line, every line's `discount` becomes the first fetched discount of its dish, or null; orders, their ids, states and line counts are otherwise unchanged; with no lines nothing changes |
| AdminOrders.IndexOf | src/pages/admin/AdminOrdersPage.tsx:159-160 | `indexOf` finds the state's first (and only) position in the sequence, never −1 |
| AdminOrders.GetNextStanje | src/pages/admin/AdminOrdersPage.tsx:158-162 | null exactly for 'prevzeto'; otherwise the state one rank further along novo→sprejeto→v_pripravi→pripravljeno→prevzeto |
| AdminOrders.AdvanceSteps | src/pages/admin/AdminOrdersPage.tsx:158-162 | n advances succeed exactly while rank + n ≤ 4, and each moves exactly one rank forward |
| AdminOrders.FourStepsToPickedUp | src/pages/admin/AdminOrdersPage.tsx:158-162 | from 'novo' four advances reach 'prevzeto' and a fifth is refused |
| AdminOrders.WithStanje | src/pages/admin/AdminOrdersPage.tsx:28-32 | only the orders with that id get the new state, and only their state; length and order stay |
| AdminOrders.Select | src/pages/admin/AdminOrdersPage.tsx:42-129 | the `filter` keeps exactly the orders whose state passes |
| AdminOrders.SelectIsSubsequence | src/pages/admin/AdminOrdersPage.tsx:42-129 | the `filter` keeps the kept orders in their original order |
| AdminOrders.SubsequenceSkip | src/pages/admin/AdminOrdersPage.tsx:42 | a subsequence of the tail is one of the whole list |
| AdminOrders.SubsequenceTail | src/pages/admin/AdminOrdersPage.tsx:42 | dropping the head of a subsequence keeps it a subsequence |
| AdminOrders.FilterEffect | src/pages/admin/AdminOrdersPage.tsx:40-42 | `FilteredNarocila`: 'vsa' shows every order; any other key shows exactly the orders in that state, in original order, each as often as the list holds it |
| AdminOrders.SelectCount | src/pages/admin/AdminOrdersPage.tsx:40-42 | the state filter keeps each order it keeps as often as the list holds it, and no other order |
| AdminOrders.TabsPartition | src/pages/admin/AdminOrdersPage.tsx:92-129 | the active tab (`Aktivna`, not 'prevzeto') and the history tab (`Zgodovina`, 'prevzeto') together hold every order exactly once |
| AdminOrders.AdvanceOnlyOnActive | src/pages/admin/AdminOrdersPage.tsx:136-224 | `CanAdvance` is false on every history card and true on every active card |
| AdminOrders.WithoutKey | src/pages/admin/AdminOrdersPage.tsx:54 | the `filter` keeps exactly the other keys |
| AdminOrders.AktivnaStanjaKeys | src/pages/admin/AdminOrdersPage.tsx:13-54 | `AktivnaStanja` is novo, sprejeto, v_pripravi, pripravljeno: every state key except 'prevzeto' |
| AdminOrders.OrdersBoard.constructor | src/pages/admin/AdminOrdersPage.tsx:22-25 | the board starts with the given orders and the 'vsa' filter |
| AdminOrders.OrdersBoard.UpdateStanje | src/pages/admin/AdminOrdersPage.tsx:27-38 | the orders become the old ones with that id's state replaced; the filter stays |
| AdminOrders.OrdersBoard.Advance | src/pages/admin/AdminOrdersPage.tsx:213-224 | callable only where the button shows; moves that order to its next state |
| AdminMenu.ValidateJedForm | src/pages/admin/AdminMenuPage.tsx:43-61 | missing fields exactly when name, description or price text is empty; an invalid price exactly when the texts are present and the price does not parse or is ≤ 0; otherwise accepted with the parsed positive price |
| AdminMenu.Edited | src/pages/admin/AdminMenuPage.tsx:65-69 | only the dish with that id takes the form's fields and the parsed price, keeping its id and restaurant; the length stays |
| AdminMenu.Deleted | src/pages/admin/AdminMenuPage.tsx:109-111 | the filter keeps exactly the dishes with other ids |
| AdminMenu.Toggled | src/pages/admin/AdminMenuPage.tsx:117-123 | only the dish with that id has its availability flipped; the length stays |
| AdminMenu.ToggleTwice | src/pages/admin/AdminMenuPage.tsx:117-123 | toggling the same dish twice restores the list |
| AdminMenu.DeleteKeepsOthers | src/pages/admin/AdminMenuPage.tsx:109-111 | deleting an id no dish has changes nothing |
| AdminMenu.DeleteOne | src/pages/admin/AdminMenuPage.tsx:109-111 | with unique ids, deleting removes exactly that dish and keeps the others in order |
| AdminMenu.EditRoundTrip | src/pages/admin/AdminMenuPage.tsx:43-105 | loading a valid dish into the form (`FormOf`) and saving it unchanged is accepted and gives the same dish back |
| AdminMenu.WholePriceRoundTrip | src/pages/admin/AdminMenuPage.tsx:53-102 | a whole-number price survives `toString` and `parseFloat`, so the loaded form is accepted with the same price |
| AdminMenu.InCategory | src/pages/admin/AdminMenuPage.tsx:126 | the filter keeps exactly the dishes of that category (membership; the order is stated by InCategoryAppend) |
| AdminMenu.InCategoryAppend | src/pages/admin/AdminMenuPage.tsx:126 | the filter of a concatenation is the concatenation of the filters: with InCategoryOne this fixes each group to its category's dishes in list order, repeats included |
| AdminMenu.InCategoryOne | src/pages/admin/AdminMenuPage.tsx:126 | a single dish is kept exactly when it is of the category |
| AdminMenu.JediPoKategorijah | src/pages/admin/AdminMenuPage.tsx:33-128 | one group per fixed category, each equal to `InCategory` of the list (that category's dishes in list order, by InCategoryAppend); a dish of another category is in no group |
| AdminMenu.MenuEditor.constructor | src/pages/admin/AdminMenuPage.tsx:36-41 | the editor starts with the given dishes, no dish being edited, the default form and the dialog closed |
| AdminMenu.MenuEditor.SaveJed | src/pages/admin/AdminMenuPage.tsx:43-95 | a rejected form changes nothing and reports its error; an accepted one edits the dish being edited or appends one new dish (`NewJed`) of restaurant 'rest_1' with the parsed price, then resets the form, clears the editing state and closes the dialog |
| AdminMenu.MenuEditor.EditJed | src/pages/admin/AdminMenuPage.tsx:97-107 | the dish becomes the one being edited, its fields fill the form, and the dialog opens; the list is unchanged |
| AdminMenu.MenuEditor.DeleteJed | src/pages/admin/AdminMenuPage.tsx:109-115 | the list loses the dishes with that id; nothing else changes |
| AdminMenu.MenuEditor.ToggleAvailability | src/pages/admin/AdminMenuPage.tsx:117-123 | the list is the toggled old list; nothing else changes |
| DiscountManager.ValidateDiscountForm | src/components/admin/DiscountManager.tsx:96-123 | missing fields exactly when the dish or the value text is empty; not positive exactly when present but unparsable or ≤ 0; over 100 exactly for a positive 'procent' value above 100 (exactly 100 passes, 'znesek' has no upper bound); otherwise valid with the parsed value |
| DiscountManager.UpdatedRows | src/components/admin/DiscountManager.tsx:128-139 | only the row with that id takes the payload; the length stays |
| DiscountManager.EmptyTextStoredAsNull | src/components/admin/DiscountManager.tsx:131-159 | on both update and insert (`Updated`, `Inserted`) an empty or missing name or description is stored as null (`NullIfEmpty`) and an absent date as null; an insert never stores an empty text |
| DiscountManager.EditRoundTrip | src/components/admin/DiscountManager.tsx:130-196 | loading an acceptable row and saving it unchanged is accepted with the same value and preserves kind, value, flag, name and description (empty texts become null); a normalised row comes back identical |
| DiscountManager.FormPayload | src/components/admin/DiscountManager.tsx:130-196 | what saving the loaded form (`FormOf`) sends (`PayloadOf`) is the row's kind, value, flag and dates, with empty texts as null |
| DiscountManager.WholeValueRoundTrip | src/components/admin/DiscountManager.tsx:106-190 | a whole-number value survives `toString` and `parseFloat`, so the round trip restores the row |
| DiscountManager.HundredPercentAccepted | src/components/admin/DiscountManager.tsx:116-123 | as written: a 'procent' discount of exactly 100 is accepted, and the confirmation e-mail then has no finite original price for the rows it writes |
| DiscountManager.ToggledRows | src/components/admin/DiscountManager.tsx:226-231 | the row with that id gets the negation of the given flag; others and the length stay |
| DiscountManager.ToggleTwice | src/components/admin/DiscountManager.tsx:226-231 | toggling with the shown flag flips it, and toggling twice restores the rows |
| DiscountManager.FindDish | src/components/admin/DiscountManager.tsx:248 | none exactly when no dish has the id; otherwise the first dish that does |
| DiscountManager.GetJedName | src/components/admin/DiscountManager.tsx:247-250 | the first matching dish's name, or 'Neznana jed' when there is none or its name is empty |
| DiscountManager.DiscountEditor.constructor | src/components/admin/DiscountManager.tsx:58-61 | the editor starts with the given rows, nothing being edited, the default form and the dialog closed |
| DiscountManager.DiscountEditor.SaveDiscount | src/components/admin/DiscountManager.tsx:96-183 | a rejected form reports its error; a rejected form or failed write changes nothing; a saved one updates the row being edited or adds one, then resets the form, clears the editing state and closes the dialog |
| DiscountManager.DiscountEditor.EditDiscount | src/components/admin/DiscountManager.tsx:185-198 | the row becomes the one being edited, the form is loaded from it and the dialog opens; the rows are unchanged |
| DiscountManager.DiscountEditor.ToggleDiscountStatus | src/components/admin/DiscountManager.tsx:226-245 | a successful write stores the negated flag on that row; a failed one changes nothing |
| Analytics.DaysInMonth | src/hooks/useAnalytics.ts:43-47 | every Gregorian month has 28 to 31 days |
| Analytics.ThresholdsOrdered | src/hooks/useAnalytics.ts:42-47 | the thresholds `PeriodThresholds` computes satisfy monthAgo < weekAgo < today, with today − weekAgo = 7 days and today − monthAgo between 28 and 31 days, also where `setMonth` carries a day the shorter month lacks |
| Analytics.Since | src/hooks/useAnalytics.ts:50-66 | a `gte('created_at', …)` query returns exactly the rows at or after the threshold |
| Analytics.LaterThresholdFewer | src/hooks/useAnalytics.ts:50-108 | a later threshold never gives more orders, nor (with non-negative totals) more revenue |
| Analytics.RevenueNonNegative | src/hooks/useAnalytics.ts:104-108 | non-negative totals sum to non-negative revenue |
| Analytics.PeriodsNested | src/hooks/useAnalytics.ts:42-108 | when all three queries on the same table return data, the shown daily ≤ weekly ≤ monthly in both order count (`PeriodCount`) and revenue (`PeriodRevenue`); a reply without data shows 0 orders and 0 revenue |
| Analytics.DistinctKeys | src/hooks/useAnalytics.ts:111-137 | the `Map`'s keys: each once, and exactly the keys of the rows |
| Analytics.TotalCountReplace | src/hooks/useAnalytics.ts:118-135 | replacing one entry changes the counter total by the difference |
| Analytics.TotalCountAppend | src/hooks/useAnalytics.ts:115-132 | opening an entry adds its counter to the total |
| Analytics.FindKey | src/hooks/useAnalytics.ts:114-131 | `Map.has`/`get`: the position holding the key, or −1 when none does |
| Analytics.TallyNewKey | src/hooks/useAnalytics.ts:114-136 | a row of an unseen key opens a zeroed entry at the end and adds its share: the entries still tally the rows seen |
| Analytics.TallyKnownKey | src/hooks/useAnalytics.ts:117-136 | a row of a known key adds its share to that entry: the entries still tally the rows seen |
| Analytics.Accumulate | src/hooks/useAnalytics.ts:111-137 | one entry per key in first-appearance order, holding the sum of its rows' counts and amounts; the counters together hold every row's count |
| Analytics.Absent | src/hooks/useAnalytics.ts:111-120 | a key no row carries has a zero counter and sum |
| Analytics.Insert | src/hooks/useAnalytics.ts:124-141 | insertion adds exactly one element |
| Analytics.InsertPermutes | src/hooks/useAnalytics.ts:124-141 | insertion keeps every element and adds the new one |
| Analytics.InsertSorted | src/hooks/useAnalytics.ts:124-141 | insertion into a sorted list keeps it sorted |
| Analytics.InsertAbove | src/hooks/useAnalytics.ts:124-141 | a lower bound on all ranks survives insertion |
| Analytics.InsertTotal | src/hooks/useAnalytics.ts:124-141 | insertion adds the new entry's counter to the total |
| Analytics.SortFacts | src/hooks/useAnalytics.ts:124-141 | `SortBy` is a permutation, sorted by the comparator's key, and keeps the counter total |
| Analytics.DishShares | src/hooks/useAnalytics.ts:113-119 | each line contributes, under its dish name, its quantity and quantity × unit price; the counts add up to all quantities |
| Analytics.PopularDishes | src/hooks/useAnalytics.ts:110-125 | groups by dish name (not id) with total quantity and revenue, whose counts add up to all quantities; `popularDishes` holds min(10, groups) of them, most ordered first, and no group left out was ordered more than one kept |
| Analytics.CutKeepsTop | src/hooks/useAnalytics.ts:124-125 | the first n of a list sorted most-ordered-first are sorted and no dropped entry outranks a kept one |
| Analytics.TrendShares | src/hooks/useAnalytics.ts:130-136 | each order counts once and adds its total to its UTC day |
| Analytics.OrderTrends | src/hooks/useAnalytics.ts:127-141 | one entry per distinct day of an order, ascending by day, each with its order count and revenue; the counts add up to the number of orders |
| Analytics.Round | src/hooks/useAnalytics.ts:152 | `Math.round`: the nearest integer, halves rounded up |
| Analytics.AveragePickupTime | src/hooks/useAnalytics.ts:143-153 | 0 without data or without picked-up orders; otherwise the rounded mean of the delays in minutes |
| Analytics.UniformDelay | src/hooks/useAnalytics.ts:143-153 | when every order waited the same whole number of minutes, that is the average |
| Analytics.UniformTotal | src/hooks/useAnalytics.ts:146-151 | equal delays sum to count × delay |
| RestaurantData.FormatTime | src/hooks/useRestaurantData.ts:97-111 | an `HH:MM` time gains `:00` and becomes `HH:MM:SS`; every other string, empty included, is left as it is |
| RestaurantData.FormatTimeIdempotent | src/hooks/useRestaurantData.ts:97-111 | formatting an already formatted time changes nothing |
| RestaurantData.FormatTimeTruncates | src/hooks/useRestaurantData.ts:101-103 | the stored `HH:MM:SS` reads back, cut to five characters, as the `HH:MM` typed, and denotes the same clock time |
| RestaurantData.Merge | src/hooks/useRestaurantData.ts:66-73 | updating without a loaded restaurant leaves none; with one, the id is kept |
| RestaurantData.MergeEffect | src/hooks/useRestaurantData.ts:66-73 | the spread keeps the id and, field by field for all eight fields, takes the supplied value or keeps the current one (`Pick`); an empty update changes nothing and the same update twice is the update once |
| RestaurantData.TrimmedOrEmptyIdempotent | src/hooks/useRestaurantData.ts:115-118 | `TrimmedOrEmpty` (`value?.trim() \|\| ''`) applied to its own result changes nothing |
| RestaurantData.SaveIdempotent | src/hooks/useRestaurantData.ts:113-139 | saving again what a save stored (`PayloadOf`) and the reload read back writes the same payload |
| RestaurantData.RestaurantEditor.constructor | src/hooks/useRestaurantData.ts:18-20 | the editor starts on the loaded restaurant and not saving |
| RestaurantData.RestaurantEditor.UpdateRestaurant | src/hooks/useRestaurantData.ts:66-73 | the state becomes the merge of the old state and the update; nothing else changes |
| RestaurantData.RestaurantEditor.SaveRestaurant | src/hooks/useRestaurantData.ts:75-156 | nothing happens without a restaurant; a blank name stops the save; a failed write keeps the state; a successful one stores the cleaned payload (with a non-empty name) and takes the reloaded state; `saving` is off at the end |
| RestaurantData.RestaurantEditor.HandleLogoUpload | src/hooks/useRestaurantData.ts:158-187 | the logo becomes the uploaded URL, and returns to the previous one when the write fails; nothing happens without a restaurant |
| Security.EmailShape | src/utils/security.ts:43-46 | an address `IsValidEmail` accepts has exactly one `@`, no whitespace, at least six characters, and ends in two letters |
| Security.EmailExample | src/utils/security.ts:43-46 | an ordinary address such as `ana@malca.si` is accepted |
| Security.RulesRank | src/utils/security.ts:52-84 | the seven checks are listed in the source's order, each at its rank |
| Security.ReportedMembers | src/utils/security.ts:52-84 | the first k checks report exactly the broken rules among them |
| Security.ReportedOrdered | src/utils/security.ts:52-84 | the first k checks report their messages in the order of the checks |
| Security.ReportedMeaning | src/utils/security.ts:49-84 | the password messages are exactly the rules the password breaks, each once and in the order the source checks them |
| Security.NoErrorsIffAccepted | src/utils/security.ts:86-89 | no messages exactly when the password meets every rule |
| Security.AcceptedIffNothingBroken | src/utils/security.ts:52-84 | a password is accepted exactly when it breaks none of the seven rules |
| Security.ValidatePassword | src/utils/security.ts:49-90 | the messages are those of the rules broken, in order, and `isValid` holds exactly when there are none, that is, when the password is accepted |
| Security.PhoneLength | src/utils/security.ts:93-96 | a number `IsValidPhone` accepts has 8 to 20 characters besides an optional leading `+`, and no `+` elsewhere |
| Security.TextLengthBound | src/utils/security.ts:99-101 | `TextLengthOk` refuses a text only for its length: every prefix of an accepted text is accepted under the same limit, and every name the name validator accepts passes a limit of 100 |
| Security.NameShape | src/utils/security.ts:104-107 | a name `IsValidName` accepts has 1 to 100 characters and holds no digit, `@`, `<` or `>` |
| Security.PriceBounds | src/utils/security.ts:110-112 | `IsValidPrice` accepts 0.50 and 100.00, and not 0.49 or 100.01 |
| Security.QuantityRange | src/utils/security.ts:115-117 | `IsValidQuantity` accepts a whole number exactly from 1 to 50, and no number with a fractional part |
| Security.FeedbackFor | src/utils/security.ts:257-280 | the weakest scores, 0 and 1, read "Zelo šibko" in the destructive colour, and only the full score 6 reads "Zelo močno" in the success colour |
| Security.CountTrue | src/utils/security.ts:246-255 | the number of rules met never exceeds the number of rules |
| Security.CountTrueAll | src/utils/security.ts:246-255 | the score is the maximum exactly when every rule is met |
| Security.StrengthPoints | src/utils/security.ts:250-255 | the score adds one point for each of the `StrengthRules`: 8 characters, 12 characters, a lower-case letter, an upper-case letter, a digit, a special character |
| Security.CountSix | src/utils/security.ts:250-255 | six rules count one point each |
| Security.GetPasswordStrength | src/utils/security.ts:241-283 | the score is the number of rules met, from 0 to 6, and the label and colour are those of that score |
| Security.AcceptedIsStrong | src/utils/security.ts:250-255 | a password the validator (lines 52-74) accepts scores at least 5, and 6 from twelve characters on |
| Security.LoginKeyInjective | src/utils/security.ts:124-175 | different addresses never share a rate-limit record (`LoginKey`) |
| Security.Recent | src/utils/security.ts:134-159 | keeps exactly the attempts younger than fifteen minutes |
| Security.RecentIdempotent | src/utils/security.ts:134-159 | pruning twice is pruning once |
| Security.MinOf | src/utils/security.ts:184 | `Math.min`: an attempt of the list, no later than any other |
| Security.RecordedKeepsRecent | src/utils/security.ts:148-165 | after a failure the record ends with the attempt just made and holds only attempts from the last fifteen minutes |
| Security.RecentKeepsLast | src/utils/security.ts:156-159 | the attempt just pushed survives the pruning |
| Security.TimeUntilNext | src/utils/security.ts:174-191 | never negative, and 0 without a record, with an unparsable one, or with fewer than five attempts |
| Security.FifthFailureBlocks | src/utils/security.ts:123-191 | once five failures are in the window, `AllowsAttempt` refuses the next login and the wait is positive and at most fifteen minutes |
| Security.FullWindowBlocks | src/utils/security.ts:136-187 | five or more attempts in the window, the last just now, refuse the login with a wait of at most fifteen minutes |
| Security.RecentAll | src/utils/security.ts:134 | pruning keeps a list whose attempts are all in the window |
| Security.WindowExpires | src/utils/security.ts:134-139 | fifteen minutes after the last attempt the window is empty and a login is allowed |
| Security.LoginLimiter.constructor | src/utils/security.ts:125 | storage starts empty |
| Security.LoginLimiter.CanAttemptLogin | src/utils/security.ts:123-145 | allowed without a record, with an unparsable one, or with fewer than five recent attempts; the pruned list is written back only when allowed |
| Security.LoginLimiter.RecordFailedAttempt | src/utils/security.ts:148-165 | only this address's record changes, to the old attempts plus this one, pruned to the window |
| Security.LoginLimiter.ClearFailedAttempts | src/utils/security.ts:168-171 | this address's record is removed and the others are kept |
| Security.LoginLimiter.GetTimeUntilNextAttempt | src/utils/security.ts:174-191 | the wait computed from the stored record, never negative; the storage does not change |
| Security.KeepNewest | src/utils/security.ts:214-216 | the newest 50 events (all of them when fewer), in their order |
| Security.SecurityLog.constructor | src/utils/security.ts:209-210 | no events are stored at first |
| Security.SecurityLog.LogEvent | src/utils/security.ts:197-222 | the event is appended and the newest 50 kept; an unparsable log is replaced by the event alone; the new event is always last |
| Security.LogIsSuffix | src/utils/security.ts:211-216 | the new log is a suffix of the old one followed by the new event |
| MenuPage.OfRestaurant | src/pages/user/MenuPage.tsx:24-27 | exactly the dishes of the shown restaurant (membership; the order is stated by OfRestaurantAppend) |
| MenuPage.OfRestaurantAppend | src/pages/user/MenuPage.tsx:24-27 | the filter of a concatenation is the concatenation of the filters: with OfRestaurantOne this fixes the result to the restaurant's dishes in menu order, repeats included |
| MenuPage.OfRestaurantOne | src/pages/user/MenuPage.tsx:24-27 | a single dish is kept exactly when it is the restaurant's |
| MenuPage.Categories | src/pages/user/MenuPage.tsx:30 | the category of each dish, one per dish, in order |
| MenuPage.Dedup | src/pages/user/MenuPage.tsx:30 | `[...new Set(…)]`: the same values, each once |
| MenuPage.FirstIndex | src/pages/user/MenuPage.tsx:30 | the position where a value first appears |
| MenuPage.DedupFirstAppearanceOrder | src/pages/user/MenuPage.tsx:30 | the kept values are in the order of their first appearance, as a `Set` iterates them |
| MenuPage.KategorijeMeaning | src/pages/user/MenuPage.tsx:24-32 | the tabs `Kategorije` lists are exactly the categories of the restaurant's dishes, each once |
| MenuPage.FirstDish | src/pages/user/MenuPage.tsx:24-32 | the position in the whole menu of the restaurant's first dish of a category: that dish serves it and none before does |
| MenuPage.KategorijeStep | src/pages/user/MenuPage.tsx:24-32 | one more dish at the end of the menu appends its category to the tabs when it is the restaurant's and the category is new, and leaves them unchanged otherwise |
| MenuPage.KategorijeOrder | src/pages/user/MenuPage.tsx:24-32 | the tabs are in menu order: of two listed categories, the earlier one's first dish of the restaurant comes earlier in the whole menu |
| MenuPage.QuantityChangeEffect | src/pages/user/MenuPage.tsx:34-39 | `QuantityChanged` moves one counter by the change and stops it at zero; every other counter is kept; counters never go negative |
| MenuPage.PlusThenMinus | src/pages/user/MenuPage.tsx:34-39 | pressing plus then minus restores a counter |
| MenuPage.AddedTimesEffect | src/pages/user/MenuPage.tsx:44-53 | calling `addToCart` k times (`AddedTimes`) keeps the cart well formed, adds k to its item count and, when k > 0, puts the dish in the cart |
| MenuPage.AddedStep | src/pages/user/MenuPage.tsx:45-52 | the k-th `addToCart` of the loop keeps the cart well formed, adds one item and puts the dish in the cart |
| MenuPage.AddOnce | src/pages/user/MenuPage.tsx:45-52 | one `addToCart` keeps the cart well formed, adds one item and puts the dish in the cart |
| MenuPage.AddToCartCount | src/pages/user/MenuPage.tsx:41-53 | `Portions`: at least one portion is added, and exactly the counter's number when it is set and non-zero |
| MenuPage.MenuPage.constructor | src/pages/user/MenuPage.tsx:19-21 | the page shows its restaurant with no counters set |
| MenuPage.MenuPage.HandleQuantityChange | src/pages/user/MenuPage.tsx:34-39 | the counters become the changed counters; they stay non-negative |
| MenuPage.MenuPage.HandleAddToCart | src/pages/user/MenuPage.tsx:41-61 | the cart receives the dish once per portion, with the restaurant's id and name, and the dish's counter is reset to 0 |
| ImageUpload.LastSegment | src/components/ui/image-upload.tsx:38-61 | `split('.').pop()`: the text after the last dot, or the whole name when it has none |
| ImageUpload.LastSegmentAfterDot | src/components/ui/image-upload.tsx:38-61 | for a name ending in `.ext`, the last segment is `ext` |
| ImageUpload.ExtensionOfDottedName | src/components/ui/image-upload.tsx:38 | a name ending in `.ext` has the `FileExtension` `.` followed by `ext` in lower case |
| ImageUpload.ExtensionOfPlainName | src/components/ui/image-upload.tsx:38 | a name without a dot is taken whole, lower-cased, as the extension |
| ImageUpload.ValidateFileMeaning | src/components/ui/image-upload.tsx:31-44 | `ValidateFile`: too large exactly when over `maxSize` megabytes; otherwise an unsupported type exactly when the extension is not accepted; passes exactly when both checks do |
| ImageUpload.UpperCaseJpegAtLimitPasses | src/components/ui/image-upload.tsx:23-44 | with the defaults, `logo.JPG` of exactly one megabyte passes |
| ImageUpload.OneByteOverIsTooLarge | src/components/ui/image-upload.tsx:23-35 | with the defaults, one byte over a megabyte is too large, whatever the name |
| ImageUpload.GifRefused | src/components/ui/image-upload.tsx:24-41 | with the defaults, a GIF that fits is refused as an unsupported type |
| ImageUpload.ImageUploader.constructor | src/components/ui/image-upload.tsx:18-26 | the component keeps its size limit and formats, with nothing stored or published |
| ImageUpload.ImageUploader.UploadFile | src/components/ui/image-upload.tsx:46-91 | the result is the validation's verdict; only a valid file whose upload succeeds is stored, under the generated prefix and its own extension, and its public address published |
| AuthForms.LooksLikeEmailMeaning | src/pages/auth/RegisterPage.tsx:39 | an address the pages accept has no whitespace, at least five characters, and exactly one `@`, with one character or more before it and three or more after it |
| AuthForms.StrictImpliesLoose | src/pages/auth/RegisterPage.tsx:39 | every address `validateInput.email` (src/utils/security.ts:43-46) accepts, the pages accept too |
| AuthForms.LooseAcceptsOneLetterDomain | src/pages/auth/RegisterPage.tsx:39 | the two checks differ: `a@b.c` passes the pages and fails `validateInput.email` |
| AuthForms.EmailErrorMeaning | src/pages/auth/RegisterPage.tsx:37-41 | the e-mail field reports 'required' exactly when empty, 'invalid' exactly when filled but not of the address shape, and nothing otherwise |
| AuthForms.PasswordRulesMeaning | src/pages/auth/RegisterPage.tsx:43-53 | the new password passes exactly from six characters on; the confirmation passes exactly when it is a non-empty copy of it |
| AuthForms.CheckName | src/pages/auth/RegisterPage.tsx:29-35 | a name blank after trimming sets the field's 'required' entry; otherwise the dictionary is unchanged |
| AuthForms.CheckEmail | src/pages/auth/RegisterPage.tsx:37-41 | sets the e-mail entry to the field's error, if any, and leaves the rest |
| AuthForms.CheckNewPassword | src/pages/auth/RegisterPage.tsx:43-47 | sets the password entry to 'required' or 'too short' when either applies, and leaves the rest |
| AuthForms.CheckConfirm | src/pages/auth/RegisterPage.tsx:49-53 | sets the confirmation entry to 'required' or 'mismatch' when either applies, and leaves the rest |
| AuthForms.CheckRequired | src/pages/auth/LoginPage.tsx:31-33 | an empty field sets its 'required' entry; otherwise the dictionary is unchanged |
| AuthForms.CollectedStep | src/pages/auth/RegisterPage.tsx:27-57 | the dictionary after one more check is the previous one updated by that check |
| AuthForms.CollectedOne | src/pages/auth/ForgotPasswordPage.tsx:20-31 | a single check makes a dictionary holding at most its own entry |
| AuthForms.CollectedTwo | src/pages/auth/LoginPage.tsx:22-37 | two checks in order make the dictionary of the first updated by the second |
| AuthForms.CollectedSix | src/pages/auth/RegisterPage.tsx:26-61 | six checks in order make the dictionary updated by each in turn |
| AuthForms.CollectedAt | src/pages/auth/RegisterPage.tsx:26-61 | with one check per field, a checked field's entry is that check's error, if any |
| AuthForms.CollectedMeaning | src/pages/auth/RegisterPage.tsx:26-61 | with one check per field, each field's entry is its check's error, only checked fields have entries, and the dictionary is empty exactly when every check passed |
| AuthForms.StrictPhoneIsTelefon | src/pages/auth/RegisterPage.tsx:55-57 | every number `validateInput.phone` (src/utils/security.ts:93-96) accepts, the registration form accepts too |
| RegisterPage.ErrorsByField | src/pages/auth/RegisterPage.tsx:26-58 | each field's entry is that field's rule's verdict |
| RegisterPage.SixFields | src/pages/auth/RegisterPage.tsx:26-58 | the six checks, one per field, leave under each field exactly that field's verdict |
| RegisterPage.NoErrorsIffAcceptable | src/pages/auth/RegisterPage.tsx:59-60 | the dictionary is empty exactly for a form that passes every rule |
| RegisterPage.ErrorsMeaning | src/pages/auth/RegisterPage.tsx:26-61 | one entry per failing field, 'required' taking precedence over the other errors of its field; an empty telephone is never an error; empty exactly for an acceptable form |
| RegisterPage.CheckTelefon | src/pages/auth/RegisterPage.tsx:55-57 | a non-empty telephone with a character other than digits, whitespace and `+ - ( )` sets the 'invalid' entry; otherwise the dictionary is unchanged |
| RegisterPage.RegisterErrors | src/pages/auth/RegisterPage.tsx:27-57 | the dictionary the six checks build, in the source's order |
| RegisterPage.Validated | src/pages/auth/RegisterPage.tsx:26-61 | the checks' dictionary, and a verdict that holds exactly when it is empty, that is, exactly for an acceptable form |
| RegisterPage.AcceptedSignUp | src/pages/auth/RegisterPage.tsx:63-75 | an accepted form calls `signUp` with an address of the accepted shape, a confirmed password of six characters or more, and the telephone, which is `undefined` exactly when left empty and well formed otherwise |
| RegisterPage.Page.constructor | src/pages/auth/RegisterPage.tsx:16-24 | all six fields empty, no errors, no sign-up made |
| RegisterPage.Page.Edit | src/pages/auth/RegisterPage.tsx:130-212 | the typed text replaces the form; errors and sign-ups are kept |
| RegisterPage.Page.ValidateForm | src/pages/auth/RegisterPage.tsx:26-61 | the shown errors become the checks' dictionary; the form is kept; valid exactly when no error is shown, that is, for an acceptable form |
| RegisterPage.Page.HandleSubmit | src/pages/auth/RegisterPage.tsx:63-79 | the errors shown are the collected checks of the form (`Collected(Checks(form))`), empty exactly when it is acceptable; `signUp` is called once, with the form's data, exactly when the form is acceptable; otherwise nothing is called |
| LoginPage.ErrorsMeaning | src/pages/auth/LoginPage.tsx:22-37 | at most an address error ('required' when empty, 'invalid' otherwise) and a password error ('required' only, with no length rule); empty exactly for an acceptable form |
| LoginPage.LoginErrors | src/pages/auth/LoginPage.tsx:23-33 | the dictionary the two checks build, in the source's order |
| LoginPage.DemoFormsAcceptable | src/pages/auth/LoginPage.tsx:51-57 | both demo accounts pass the page's checks |
| LoginPage.UporabnikAddress | src/pages/auth/LoginPage.tsx:53 | the customer demo address has the accepted shape |
| LoginPage.AdminAddress | src/pages/auth/LoginPage.tsx:55 | the administrator demo address has the accepted shape |
| LoginPage.ShortPasswordSignsIn | src/pages/auth/LoginPage.tsx:31-33 | a one-character password, which the registration rules refuse, passes the sign-in checks |
| LoginPage.Page.constructor | src/pages/auth/LoginPage.tsx:16-20 | both fields empty, no errors, no sign-in made |
| LoginPage.Page.Edit | src/pages/auth/LoginPage.tsx:96-113 | the typed text replaces the form; errors and sign-ins are kept |
| LoginPage.Page.HandleDemoLogin | src/pages/auth/LoginPage.tsx:51-57 | the form becomes the chosen demo account's credentials, and nothing else changes |
| LoginPage.Page.ValidateForm | src/pages/auth/LoginPage.tsx:22-37 | the shown errors become the checks' dictionary; the form is kept; valid exactly when no error is shown, that is, for an acceptable form |
| LoginPage.Page.HandleSubmit | src/pages/auth/LoginPage.tsx:39-49 | the errors shown are the collected checks of the form, empty exactly when it is acceptable; `signIn` is called once, with the typed credentials, exactly when the form is acceptable |
| ForgotPasswordPage.ErrorsMeaning | src/pages/auth/ForgotPasswordPage.tsx:20-31 | no error exactly for an address of the accepted shape, only 'required' exactly for an empty one, only 'invalid' exactly for a filled one of the wrong shape |
| ForgotPasswordPage.ForgotErrors | src/pages/auth/ForgotPasswordPage.tsx:21-27 | the dictionary the address check builds |
| ForgotPasswordPage.Page.constructor | src/pages/auth/ForgotPasswordPage.tsx:16-18 | empty address, confirmation not shown, no errors, no request made |
| ForgotPasswordPage.Page.Edit | src/pages/auth/ForgotPasswordPage.tsx:134 | the typed text replaces the address; nothing else changes |
| ForgotPasswordPage.Page.ValidateForm | src/pages/auth/ForgotPasswordPage.tsx:20-31 | the shown errors become the check's dictionary; valid exactly when no error is shown, that is, for an address of the accepted shape |
| ForgotPasswordPage.Page.HandleSubmit | src/pages/auth/ForgotPasswordPage.tsx:33-44 | the errors shown are the collected checks of the address, empty exactly when it has the accepted shape; `resetPassword` is called exactly for such an address, and the confirmation is shown only once such a call succeeds |
| ResetPasswordPage.ErrorsMeaning | src/pages/auth/ResetPasswordPage.tsx:59-76 | at most a password error and a confirmation error, 'required' taking precedence over 'too short' and 'mismatch'; empty exactly for a password of six characters or more confirmed exactly |
| ResetPasswordPage.ResetErrors | src/pages/auth/ResetPasswordPage.tsx:60-72 | the dictionary the two checks build, in the source's order |
| ResetPasswordPage.Page.constructor | src/pages/auth/ResetPasswordPage.tsx:17-24 | both fields empty, no errors, success not shown, no update made |
| ResetPasswordPage.Page.Edit | src/pages/auth/ResetPasswordPage.tsx:210-227 | the typed text replaces the form; nothing else changes |
| ResetPasswordPage.Page.ValidateForm | src/pages/auth/ResetPasswordPage.tsx:59-76 | the shown errors become the checks' dictionary; valid exactly when no error is shown, that is, for an acceptable form |
| ResetPasswordPage.Page.HandleSubmit | src/pages/auth/ResetPasswordPage.tsx:78-92 | the errors shown are the collected checks of the form, empty exactly when it is acceptable; `updatePassword` is called with the new password exactly for an acceptable form, so never with fewer than six characters; success is shown only once such a call succeeds |
| Common.TrimStart | src/hooks/useRestaurantData.ts:114 | the leading part of `trim`: a suffix of the text, not starting with whitespace, with only whitespace removed |
| Common.TrimEnd | src/hooks/useRestaurantData.ts:114 | the trailing part of `trim`: a prefix of the text, not ending with whitespace, with only whitespace removed |
| Common.TrimIdempotent | src/hooks/useRestaurantData.ts:114-118 | trimming a trimmed text again changes nothing |
| Common.Trim | src/hooks/useRestaurantData.ts:114-118 | a trimmed text is no longer than the original and neither starts nor ends with whitespace |
| Common.TrimEmptyIffBlank | src/hooks/useRestaurantData.ts:87 | a text is empty after trimming exactly when it holds only whitespace |
| Common.ToLowerChar | src/components/ui/image-upload.tsx:38 | an upper-case ASCII letter becomes the same letter in lower case; every other character is kept |
| Common.ToLower | src/components/ui/image-upload.tsx:38 | `toLowerCase`: the same length, each character lowered |
| Common.LeadingDigits | src/pages/admin/AdminMenuPage.tsx:53 | the length of the run of digits at the front of the text |
| Common.LeadingDigitsAll | src/pages/admin/AdminMenuPage.tsx:53 | a text made only of digits is one run |
| Common.LeadingDigitsStop | src/pages/admin/AdminMenuPage.tsx:53 | the run stops at the first character that is not a digit |
| Common.ParseDigits | src/pages/admin/AdminMenuPage.tsx:53 | `ParseFloat` of a text of digits alone is their value |
| Common.TrimStartKeeps | src/pages/admin/AdminMenuPage.tsx:53 | a text starting with a digit has no leading whitespace and no sign |
| Common.UnsignedIgnoresTail | src/components/admin/DiscountManager.tsx:106 | the unsigned number is read from the digits at the front, the rest ignored |
| Common.ParseIgnoresTail | src/components/admin/DiscountManager.tsx:106 | `parseFloat` ignores what follows the number: digits followed by text that starts with neither a digit nor a point parse to the digits' value |
| Common.NatText | src/pages/admin/AdminMenuPage.tsx:53 | the text of a whole number is a non-empty string of digits |
| Common.NatTextValue | src/pages/admin/AdminMenuPage.tsx:53 | the digits of that text have the number's value |
| Common.ParseNatText | src/pages/admin/AdminMenuPage.tsx:53 | `parseFloat` reads the text of a whole number back as that number |
| Common.Pow10 | src/pages/admin/AdminMenuPage.tsx:53 | the scale of the fraction digits is at least 1 |
| Common.DigitValue | src/pages/admin/AdminMenuPage.tsx:53 | a digit's value is below 10 |
| Common.DigitChar | src/pages/admin/AdminMenuPage.tsx:53 | the digit character of a value below 10 has that value |

## Left out

- Supabase I/O is not modelled: queries, inserts, updates, auth sessions, realtime channels, storage and function invocations. Fetched rows are inputs, and each write is a boolean success parameter or the updated list.
- The loading, saving and uploading flags are left out where they only drive spinners. So are dialog, tab and drag-and-drop state that has no effect on data.
- Toasts and message texts are left out. An error is modelled as its kind, such as `Required` or `Malformed`, not its Slovenian wording.
- `fetchRestaurantData` and the restaurant lookup through `admin_restavracije` are I/O. The loaded restaurant is the editor's initial state.
- The session check on the new-password page (src/pages/auth/ResetPasswordPage.tsx:26-57) and the delayed `onSuccess` redirect are left out. Both depend on the Supabase session and on timers.
- `sanitizeInput` is left out because it calls the DOMPurify library. `securityLogging.getPendingEvents` and `clearEvents` only read or remove the whole log.
- `localStorage` is a map. A JSON string that does not parse is the `Unparsable` record. Failures of `setItem` itself are not modelled.
- The generated file name's `Date.now()`/`Math.random()` prefix is a parameter, and so are the ids the database or the clock assigns (`freshId`).
- Floating point is not modelled: money is an exact `real`, and `toFixed(2)` rendering is left out. A division by zero is the `NonFinite` value rather than `Infinity`.
- Common.ParseFloat: only decimal literals are read, as optional whitespace, a sign, digits and a fraction. Exponents, `Infinity` and hexadecimal prefixes are not read.
- Common.ToLower: only the ASCII letters are lowered. This matters for the common-password check and for file extensions with non-ASCII letters.
- String lengths count Unicode characters where JavaScript counts UTF-16 code units, so characters outside the Basic Multilingual Plane count once instead of twice.
- Dates: date-fns, time zones, daylight saving and ISO strings are not modelled.
  - In `WorkingHours`, an instant is seconds from local midnight.
  - In `Analytics`, days are consecutive integers and an order's UTC date is its day number.
- Analytics.ThresholdsOrdered: January of year 0 is excluded, so that the previous month exists.
- The queries of `fetchAnalytics` and the discount fetch in `useDiscounts` are inputs. Their filters (`gte`, `eq('aktiven', true)`) are modelled as functions over the rows.
- Analytics.SortFacts: the sort is stable by construction, since ties keep their first-appearance order, but stability is not stated as a property.
- Security.FeedbackFor states only the lowest and the highest bands. The middle labels (Šibko, Srednje, Močno) are in its body and follow the `switch` case by case.

## Findings

| source | as written | input that shows it | evidently intended | confidence | as-written member | corrected member |
|---|---|---|---|---|---|---|
| src/services/orderService.ts:86 | `createOrder` stores the catalogue price `jed.cena` as `cena_na_kos`. The confirmation e-mail (supabase/functions/send-order-confirmation/index.ts:91-95) treats that price as already discounted and reconstructs an "original" from it. | A 10.00 dish with an active 50 % discount is stored at 10.00. The e-mail shows 20.00 struck through and charges 10.00 instead of 5.00. | Store the discounted unit price, so that the e-mail's reconstruction returns the catalogue price. | not executed | OrderService.StoredPriceIsUndiscounted | OrderService.DiscountedLinesRoundTrip |
| src/components/admin/DiscountManager.tsx:116-123 | The discount editor accepts a 'procent' discount of exactly 100. The e-mail then divides by 1 − 100/100 (supabase/functions/send-order-confirmation/index.ts:93). | A 100 % discount on any dish: the e-mail's original price is a division by zero. | Show the original price without reconstructing it, from the dish's catalogue price, which the e-mail already loads. | not executed | DiscountManager.HundredPercentAccepted | OrderConfirmation.LinePriceInfoCorrected |
