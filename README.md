# Restaurant menu: the menu store, its derived views and the add form

This project models the logic of a small restaurant-menu app. A chef adds and
removes dishes. Diners see the menu, filter it by course, and read the average
price of each course. All state is one in-memory, newest-first list of menu
items shared by three screens.

Modules, one per source file:

- `MenuContext` (`menu_context.dfy`) holds the four-value `Course` type and
  `Courses`, the `COURSES` list in display order. It also holds the `MenuItem`
  record and `NewItem`, which is the item without its id. `Prepended` is the
  list after `addItem`. `WithoutId` is the list after `removeItem`. `OfCourse`
  is the course filter both screens use. The provider is the class `MenuStore`:
  its field `menuItems` is replaced by `AddItem`, `RemoveItem` and `SetAll`.
- `FilterScreen` (`filter_screen.dfy`) holds the picker value (`All` or one
  course), its initial value `All`, and `Filtered`, the list the screen shows.
- `HomeScreen` (`home_screen.dfy`) holds `Average`, the entry for one course,
  and `ComputeAverages`, the loop over `Courses` that fills the averages map.
- `ChefScreen` (`chef_screen.dfy`) holds `Validate`, the four guards of
  `validateAndAdd` in order, and the class `ChefForm`. Its four fields are the
  form state. `ValidateAndAdd` runs the guards, then either reports the first
  failure or adds the dish to the store once and clears the form.
- `Text` (`text.dfy`) models the part of `String.prototype.trim` the form relies
  on. `Sequences` (`sequences.dfy`) defines order-preserving subsequences.
  `Wrappers` (`wrappers.dfy`) defines `Option`, `Result` and `Outcome`.

Inputs the program takes from outside are parameters:

- the id `Date.now().toString()` is the `id` argument of `AddItem` and
  `ValidateAndAdd`;
- `parseFloat` is a function argument `string -> Option<real>` of
  `ValidateAndAdd`, where `None` stands for `NaN`;
- a refusal alert is the returned `Fail(e)`, and `Message(e)` gives the alert text.

Two points where one might expect more than the code does:

- Ids might be expected to be unique, with removal dropping a single item.
  The code takes ids from the clock, and `removeItem` drops every item that
  carries the id. So the model proves that removal shortens the list by the
  number of items sharing the id (`WithoutIdLength`). It claims no uniqueness.
- The store might be expected to re-check the items it is given. The code's
  store accepts whatever it is given, so `MenuStore` has no validity
  requirement. `FormKeepsMenuValid` shows that adding through the form and
  removing by id keep every item valid. `SetAll` can install any list.

## Model

| member | source | states |
|---|---|---|
| MenuContext.CoursesEnumerated | MenuContext.tsx:4-5 | the course list has four entries, no repeats, and contains every course |
| MenuContext.WithId | MenuContext.tsx:37 | the stored record keeps the new item's name, description, course and price and carries the given id |
| MenuContext.Prepended | MenuContext.tsx:36-39 | after an add the list is one longer, its head carries the given id and fields, and its tail is the old list |
| MenuContext.WithoutId | MenuContext.tsx:41-43 | removal never lengthens the list; an item remains exactly when it was present and its id differs, so no item with the id remains |
| MenuContext.WithoutIdSubsequence | MenuContext.tsx:42 | the items kept by removal stay in their original relative order |
| MenuContext.WithoutIdMultiplicity | MenuContext.tsx:42 | removal keeps every copy of each item with another id and drops every copy with the id |
| MenuContext.WithoutIdLength | MenuContext.tsx:42 | removal shortens the list by exactly the number of items carrying the id |
| MenuContext.WithoutAbsentId | MenuContext.tsx:42 | removing an id that no item carries leaves the list unchanged |
| MenuContext.WithoutIdIdempotent | MenuContext.tsx:42 | removing the same id twice gives the same list as removing it once |
| FilterScreen.Filtered | FilterScreen.tsx:23-24 | All gives the input list itself; an item is in the result exactly when it is in the input and the selection is All or its course; order, multiplicity, length and idempotence are in FilteredByCourse, FilteredNoLonger and FilteredIdempotent |
| MenuContext.OfCourse | FilterScreen.tsx:24 | an item is in the course filter's result exactly when it is in the input and has that course |
| MenuContext.OfCourseSubsequence | FilterScreen.tsx:24 | the course filter keeps its items in their input order |
| MenuContext.OfCourseMultiplicity | HomeScreen.tsx:24 | the course filter keeps every copy of each item of the course and no copy of any other item |
| MenuContext.OfCourseOfUniform | FilterScreen.tsx:24 | a list whose items all have the course passes the filter unchanged |
| MenuContext.OfCourseWithoutOtherId | HomeScreen.tsx:24 | removing an id carried by no item of a course leaves that course's filtered items unchanged |
| MenuContext.MenuStore.constructor | MenuContext.tsx:31-34 | the store starts empty |
| MenuContext.MenuStore.AddItem | MenuContext.tsx:36-39 | the stored list becomes the stamped item followed by the old list unchanged, one longer |
| MenuContext.MenuStore.RemoveItem | MenuContext.tsx:41-43 | the stored list becomes the old one without the id's items; membership and length are stated |
| MenuContext.MenuStore.SetAll | MenuContext.tsx:45 | the stored list becomes exactly the given list |
| FilterScreen.InitialShowsAll | FilterScreen.tsx:21-24 | the initial selection is All, which shows the input list itself |
| FilterScreen.FilteredByCourse | FilterScreen.tsx:23-24 | with a course chosen, the result keeps exactly the input items of that course, with the same multiplicities, in the same order, and every result item has that course |
| FilterScreen.FilteredNoLonger | FilterScreen.tsx:23-24 | a filtered list is never longer than the input, and All returns the input unchanged |
| FilterScreen.FilteredIdempotent | FilterScreen.tsx:23-24 | filtering the result again with the same selection gives the same result |
| HomeScreen.SumPrices | HomeScreen.tsx:28 | the prices folded left to right from 0; its contract is carried by SumPricesBounds and MeanWithinBounds (a sum of n prices in [lo, hi] lies in [n*lo, n*hi]) |
| HomeScreen.Average | HomeScreen.tsx:24-29 | a course's entry is None exactly when no item has that course; otherwise its value lies within the course's price bounds (AverageWithinBounds) and depends only on that course's items (AverageIgnoresAddedOtherCourse, AverageIgnoresRemovedOtherCourse) |
| HomeScreen.ComputeAverages | HomeScreen.tsx:21-33 | the averages map has an entry for every course, and each entry is that course's average |
| HomeScreen.AverageAbsentIff | HomeScreen.tsx:24-26 | a course's entry is null exactly when no item has that course, so the division never divides by zero |
| HomeScreen.AverageOfEmptyMenu | HomeScreen.tsx:24-26 | on an empty menu every course's entry is null |
| HomeScreen.SumPricesBounds | HomeScreen.tsx:28 | a sum of n prices that each lie in [lo, hi] lies in [n*lo, n*hi] |
| HomeScreen.OfCourseWithinBounds | HomeScreen.tsx:24 | price bounds that hold for a course's items hold for every item of the filtered list |
| HomeScreen.MeanWithinBounds | HomeScreen.tsx:27-29 | the sum of a non-empty list's prices divided by its length lies between the smallest and largest price |
| HomeScreen.AverageWithinBounds | HomeScreen.tsx:24-29 | a course's average lies between any lower and upper bound on that course's prices |
| HomeScreen.AverageIgnoresAddedOtherCourse | HomeScreen.tsx:24 | adding an item of another course leaves a course's entry unchanged |
| HomeScreen.AverageIgnoresRemovedOtherCourse | HomeScreen.tsx:24 | removing an id that no item of the course carries leaves that course's entry unchanged |
| HomeScreen.TwoMainsExample | HomeScreen.tsx:21-33 | two Mains priced 100 and 200 give a Mains average of 150 and null for every other course |
| Text.Trim | ChefScreen.tsx:31-32 | the trimmed text is empty exactly when the input is all whitespace, and otherwise it starts and ends with non-whitespace |
| Text.TrimStart | ChefScreen.tsx:31-32 | the result is a suffix of the input that is empty or starts with non-whitespace; TrimStartSuffix adds that only whitespace is dropped |
| Text.TrimEnd | ChefScreen.tsx:31-32 | the result is a prefix of the input that is empty or ends with non-whitespace; TrimEndPrefix adds that only whitespace is dropped |
| Text.TrimKeepsMiddle | ChefScreen.tsx:37 | the trimmed text is a contiguous stretch of the input with only whitespace before and after it |
| Text.TrimStartSuffix | ChefScreen.tsx:31 | trimming the start keeps a suffix that starts with non-whitespace and drops only whitespace |
| Text.TrimEndPrefix | ChefScreen.tsx:31 | trimming the end keeps a prefix that ends with non-whitespace and drops only whitespace |
| Text.TrimOfTrimmed | ChefScreen.tsx:31-37 | helper for ValidateAcceptsEveryValid: text with no surrounding whitespace is unchanged by trimming |
| Text.TrimIdempotent | ChefScreen.tsx:31-37 | helper fact about the trim the form applies: trimming twice gives the same result as trimming once |
| ChefScreen.Message | ChefScreen.tsx:31-35 | each refusal carries the source's non-empty alert text |
| ChefScreen.Validate | ChefScreen.tsx:31-37 | whatever the four checks let through is a valid dish; the order of the checks is in ValidateReportsFirstFailure, and the exact accepted item in ValidateAcceptsOnlyValid and ValidateAcceptsEveryValid |
| ChefScreen.ValidateReportsFirstFailure | ChefScreen.tsx:30-35 | the form is accepted exactly when none of the four checks fails; a refusal reports the failing check that comes first in the order name, description, course, price |
| ChefScreen.ValidateAcceptsOnlyValid | ChefScreen.tsx:31-37 | an accepted form yields a non-empty trimmed name and description, the selected course and the parsed non-negative price |
| ChefScreen.ValidateAcceptsEveryValid | ChefScreen.tsx:31-37 | every dish with trimmed, non-empty text and a non-negative price, entered as it is, is accepted unchanged |
| ChefScreen.PriceBoundary | ChefScreen.tsx:34-35 | a price of 0 is accepted and a negative price is refused with the price error |
| ChefScreen.ChefForm.constructor | ChefScreen.tsx:25-28 | every form field starts empty and no course is selected |
| ChefScreen.ChefForm.ValidateAndAdd | ChefScreen.tsx:30-42 | on a refusal it reports the first failing check and changes neither the form nor the store; otherwise it prepends the trimmed dish to the store once and clears all four fields |
| ChefScreen.FormKeepsMenuValid | ChefScreen.tsx:30-42 | if every item is valid, an add the form accepts keeps every item valid, and so does a removal by id |

## Left out

- Rendering, navigation, styles, list widgets, pickers and the empty-list messages are not modelled. They are presentation only.
- React's state-update scheduling and `useMemo` caching are not modelled. Neither is the context object or the error `useMenu` throws outside a provider. `MenuStore` is a plain class whose methods replace its list directly.
- `menuItems` is read as the `MenuStore.menuItems` field. `ComputeAverages` takes that list as a value, so it cannot change the store.
- `MenuContext.MenuStore.AddItem`: the clock id `Date.now().toString()` is an argument, so nothing is claimed about ids being unique or increasing.
- `ChefScreen.ChefForm.ValidateAndAdd`: `parseFloat` is an argument. Its JavaScript rules are not modelled, such as accepting the prefix of `"12abc"` or returning `Infinity`.
- `Text.Trim`: only space, tab, line feed and carriage return count as whitespace. JavaScript's `trim` also removes other Unicode whitespace and line terminators.
- `HomeScreen.ComputeAverages`: prices are exact reals. Double-precision rounding in the sum and the division is not modelled. The `toFixed(2)` display is not modelled either.
- The averages map is keyed by `Course` where the source uses string keys. The keys it fills are exactly the four courses.
- The alert dialog is not modelled. A refusal is the returned `Fail(e)`, and `Message(e)` holds the alert's text.
