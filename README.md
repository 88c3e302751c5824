# Storefront decision logic in Dafny

This project models the decision logic of an iFixit-style storefront: a Next.js
web shop whose product, collection and troubleshooting pages are React components,
plus a CMS plugin that exports collections as CSV. Most of the repository is
rendering and calls to outside services. What is modelled here is the sequential
data code that decides what gets rendered or sent:

- **Cart** (`AddToCart`). `addLineItem` merges a line into the cart. The
  optimistic update of `useAddToCart` folds in the product or the bundle items,
  sorts the lines by itemcode and keeps a snapshot. Its error handler puts the
  snapshot back. The query cache is a class whose methods change its cart, and a
  cached cart is an object whose line array can be shared: for an input without
  lines the snapshot is the cached object itself, so the in-place sort reaches
  it too. Without a snapshot the error handler leaves the cache as it is.
- **Table of contents** (`TocContext`). This is the registry of the troubleshooting
  page: records keyed by unique id in key insertion order (the order
  `Object.values` gives for ids that are not integer-like). It holds the add,
  update-ref and remove operations, the stable vertical sort, the closest-visible
  selector and the loop that marks the active record. `TOCProvider` is a class
  holding the registry.
- **Troubleshooting page** (`Troubleshooting`). It covers section defaults, the
  table of contents, the deduplicated and capped related problems, and the
  contributor and problem count texts.
- **Collection search** (`SearchProducts`, `SearchInput`, `HeroSection`). It turns
  search parameters into page, query and facet refinements, then builds the facet
  filters and the filter string. It also covers the search-box truncation and the
  hero title's page suffix.
- **Product page** (`ProductServer`, `ProductModel`, `ProductGallery`, `CrossSell`,
  `Rating`, `NotifyMe`, `WorkbenchCompatibility`). It covers:
  - the order of the redirect and not-found decisions;
  - the merge of query parameters into a redirect URL;
  - the per-store product URLs and the redirect priority of `findProduct`;
  - the gallery's image selection and zoom rule;
  - the cross-sell selection (a class) and its total;
  - the half-star rating;
  - the notify-me form's status steps (a class);
  - the workbench compatibility provider (a class).
- **Product lists** (`ProductListView`, `ProductList`, `ProductGrid`). It covers
  which list and sections render, the related-post tags, and the stock, discount
  and badge rules of list and grid items.
- **Layout** (`LayoutApi`, `DefaultLayout`). It covers the recursive normalisation
  of CMS menus, the footer props, the header navigation filter, the notification
  badge and the title default.
- **Helpers and analytics** (`GenericHelpers`, `Piwik`, `Analytics`, `ExportCsv`).
  It covers:
  - JavaScript truthiness, `invariant`, `isPresent`, `isRecord` and `filterNullableItems`;
  - the Piwik tracker queue, as an append-only log of commands (a class);
  - the add-to-cart event strings;
  - the CSV export's record shaping, file name and count.

Three modules are shared by the others:
- `Wrappers`: `Option`, `Result` and `Outcome`.
- `Strings`: decimal text, `parseInt` on decimal text, `split`, `join`, `trim`
  and code-point order.
- `Sorting`: JavaScript's stable `Array.prototype.sort`. The specification is
  an insertion-sort function. An in-place array method is proved equal to it.
  The function is proved to give a sorted permutation whose head is the first
  minimal element.

Modelling conventions:
- Values of unbounded width stand in for JavaScript numbers: prices are integer
  cents, ratings integer half-stars, offsets integers.
- `null` and `undefined` become `Option`.
- A dictionary whose key order matters is a sequence of entries with unique keys.
- Functions the code calls but does not define are parameters: Markdown
  rendering, URL parsing, the discount percentage, the clock and the entity
  service.
- Requests, I/O and effect callbacks are parameters too. Each is given its
  outcome rather than awaited.

## Model

| member | source | states |
|---|---|---|
| `GenericHelpers.IsRecordIff` | packages/helpers/generic-helpers.ts:5-7 | `isRecord` holds exactly for objects and arrays: `null`, `undefined` and every primitive are refused |
| `GenericHelpers.Truthy` | packages/helpers/generic-helpers.ts:17 | a truthy value is neither `null` nor `undefined`, and a string is truthy exactly when it is non-empty |
| `GenericHelpers.TypeOf` | packages/helpers/generic-helpers.ts:6 | `typeof` gives one of six names; `object` exactly for `null`, objects and arrays, and `string` exactly for strings |
| `GenericHelpers.IsRecord` | packages/helpers/generic-helpers.ts:5-7 | a record is always truthy |
| `GenericHelpers.Invariant` | packages/helpers/generic-helpers.ts:13-30 | returns normally iff the condition is truthy; otherwise fails with the bare prefix in production or without a non-empty message, and with `prefix: message` otherwise |
| `GenericHelpers.InvariantMessageRecoverable` | packages/helpers/generic-helpers.ts:21-29 | a failure message always starts with `invariant failed`, equals it exactly when in production or without a message, and otherwise carries the message after `": "` |
| `GenericHelpers.IsPresentIff` | packages/helpers/generic-helpers.ts:77-79 | `isPresent` holds exactly for truthy (non-empty) strings |
| `GenericHelpers.IsPresent` | packages/helpers/generic-helpers.ts:77-79 | a present value is a truthy string |
| `GenericHelpers.Present` | packages/helpers/generic-helpers.ts:84 | the kept items are exactly the non-null items: none is made up, none is lost, and the result is no longer than the input |
| `GenericHelpers.FilterNullableItems` | packages/helpers/generic-helpers.ts:81-85 | a missing list gives `[]`; a present one gives its non-null items |
| `GenericHelpers.PresentAppend` | packages/helpers/generic-helpers.ts:84 | filtering keeps relative order: it distributes over concatenation |
| `GenericHelpers.PresentOfAllSome` | packages/helpers/generic-helpers.ts:84 | a list with no null item is kept whole, item by item |
| `AddToCart.FindIndex` | packages/cart-sdk/hooks/use-add-to-cart.ts:118-120 | the first line with the itemcode, or -1 exactly when no line has it |
| `AddToCart.AddLineItem` | packages/cart-sdk/hooks/use-add-to-cart.ts:117-142 | a new itemcode is appended; a known one has its quantity increased in place with every other line unchanged; `hasItemsInCart` becomes true, `itemsCount` grows by the input quantity, and every other field is kept |
| `AddToCart.AddLineItemKeepsUnique` | packages/cart-sdk/hooks/use-add-to-cart.ts:117-142 | adding a line keeps each itemcode on at most one line, and the added itemcode is present afterwards |
| `AddToCart.AddLineItemKeepsCodes` | packages/cart-sdk/hooks/use-add-to-cart.ts:121-132 | adding a line never drops an itemcode already in the cart |
| `AddToCart.InputLineItems` | packages/cart-sdk/hooks/use-add-to-cart.ts:78-81 | a bundle input adds its items; a product input adds the one product |
| `AddToCart.Fold` | packages/cart-sdk/hooks/use-add-to-cart.ts:83-86 | an empty reduce returns its seed; otherwise every line keeps its place and itemcode and at most one line per input is appended |
| `AddToCart.SumQuantities` | packages/cart-sdk/hooks/use-add-to-cart.ts:139 | the added quantities are non-negative for non-negative lines, and count the lines when each quantity is one |
| `AddToCart.FoldCounts` | packages/cart-sdk/hooks/use-add-to-cart.ts:83-86 | the reduce adds exactly the sum of the input quantities to `itemsCount`, keeps the other fields, and leaves `hasItemsInCart` true after any input |
| `AddToCart.FoldKeepsUnique` | packages/cart-sdk/hooks/use-add-to-cart.ts:83-86 | the reduce keeps itemcodes unique and leaves a line for every input itemcode |
| `AddToCart.ItemcodePreorder` | packages/cart-sdk/hooks/use-add-to-cart.ts:88-90 | the itemcode comparison is total and transitive, so the stable sort orders the lines |
| `AddToCart.OptimisticUpdate` | packages/cart-sdk/hooks/use-add-to-cart.ts:74-93 | the cached cart is the folded cart with its lines permuted into itemcode order |
| `AddToCart.OptimisticUpdateKeepsUnique` | packages/cart-sdk/hooks/use-add-to-cart.ts:83-92 | the optimistic cart keeps each itemcode on at most one line |
| `AddToCart.UniqueUnderPermutation` | packages/cart-sdk/hooks/use-add-to-cart.ts:88-90 | reordering lines keeps itemcodes unique |
| `AddToCart.UniqueOccursOnce` | packages/cart-sdk/hooks/use-add-to-cart.ts:88-90 | with unique itemcodes, every line occurs exactly once |
| `AddToCart.QueryCache.constructor` | packages/cart-sdk/hooks/use-add-to-cart.ts:27 | the query cache starts with the given cart |
| `AddToCart.ValueOf` | packages/cart-sdk/hooks/use-add-to-cart.ts:70 | the value of a cached cart object: its lines are the current contents of its array and its other fields are its own |
| `AddToCart.QueryCache.OnMutate` | packages/cart-sdk/hooks/use-add-to-cart.ts:65-97 | returns the cached cart object itself as context; a missing cart stays missing; a present one comes to hold its optimistic update. An input without lines sorts the cached array in place, so the context sees the sort; any other input builds a new array and leaves the old one untouched |
| `AddToCart.QueryCache.OnError` | packages/cart-sdk/hooks/use-add-to-cart.ts:98-103 | the cache is set back to the context's previous cart; without a context or a previous cart, `setQueryData(key, undefined)` leaves the cache as it is |
| `AddToCart.QueryCache.MutateThenFail` | packages/cart-sdk/hooks/use-add-to-cart.ts:65-103 | a failed mutation puts back the same cart object; its lines are as before for an input with lines, and sorted by itemcode for an input without lines, because the snapshot shares the array that was sorted |
| `AddToCart.EmptyInputOnlySorts` | packages/cart-sdk/hooks/use-add-to-cart.ts:83-90 | for an input without lines the optimistic update only sorts the lines: the cart is otherwise the same, and its lines are the same multiset |
| `Analytics.TrackInMatomoAndGA` | packages/analytics/index.tsx:12-28 | nothing happens on the server; in a browser one Matomo event and then one GA event, with the same category, action and name; the name is the given one when non-empty and the page origin and path otherwise |
| `Analytics.TrackWithResolvedName` | packages/analytics/index.tsx:12-28 | in a browser, tracking again with the name that was sent gives the same two events |
| `Analytics.Event` | packages/analytics/index.tsx:42-43 | the event is `Add to Cart`, followed by ` - ` and the specification only when that is non-empty |
| `Analytics.Itemcodes` | packages/analytics/index.tsx:48-49 | the itemcodes of the bundle items, in order |
| `Analytics.ItemcodesOf` | packages/analytics/index.tsx:44-50 | a product gives its itemcode; a bundle gives text that begins with the current itemcode and then `/` |
| `Analytics.TrackAddToCart` | packages/analytics/index.tsx:30-56 | nothing happens on the server; otherwise the cart change and the Google add-to-cart are tracked first, then the Matomo and the GA event, each with the event as category, the event, ` - ` and the itemcodes as action, and the page URL as name |
| `Analytics.BundleActionParts` | packages/analytics/index.tsx:44-50 | a bundle's itemcodes are the current itemcode, `/`, then the item codes joined with `, `; when the current itemcode has no slash, the first `/` separates the two parts |
| `CrossSell.Ids` | frontend/templates/product/sections/CrossSellSection/index.tsx:38-39 | the ids of the cross-sell variants, in order |
| `CrossSell.InitialSelection` | frontend/templates/product/sections/CrossSellSection/index.tsx:37-41 | the selection starts with every cross-sell variant id, in order, then the current variant's id |
| `CrossSell.Remove` | frontend/templates/product/sections/CrossSellSection/index.tsx:46 | the filtered selection no longer holds the id, keeps every other id, and is unchanged when the id was absent |
| `CrossSell.Toggle` | frontend/templates/product/sections/CrossSellSection/index.tsx:43-50 | the toggled id is selected afterwards exactly when it was not before, and every other id keeps its membership |
| `CrossSell.ToggleTwice` | frontend/templates/product/sections/CrossSellSection/index.tsx:43-50 | toggling the same id twice restores the selection, as a set |
| `CrossSell.Find` | frontend/templates/product/sections/CrossSellSection/index.tsx:57-59 | `find` misses exactly when no cross-sell variant has the id, and otherwise returns the first variant that has it |
| `CrossSell.IndexOfId` | frontend/templates/product/sections/CrossSellSection/index.tsx:57-59 | the position of the first variant with the id, or -1 exactly when no variant has it |
| `CrossSell.PriceOf` | frontend/templates/product/sections/CrossSellSection/index.tsx:55-64 | the current id adds the current price; an unknown id adds nothing; a cross-sell id adds the price of the first variant with it |
| `CrossSell.TotalPrice` | frontend/templates/product/sections/CrossSellSection/index.tsx:52-64 | an empty selection totals 0, and with non-negative prices no total is negative |
| `CrossSell.TotalPriceAppend` | frontend/templates/product/sections/CrossSellSection/index.tsx:52-64 | the reduce's total of two concatenated selections is the sum of their totals |
| `CrossSell.UnknownIdsAddNothing` | frontend/templates/product/sections/CrossSellSection/index.tsx:60-63 | ids of neither the current nor a cross-sell variant add nothing to the total |
| `CrossSell.FindDistinct` | frontend/templates/product/sections/CrossSellSection/index.tsx:57-59 | with distinct ids, `find` by a variant's id returns that variant |
| `CrossSell.TotalOfCrossSells` | frontend/templates/product/sections/CrossSellSection/index.tsx:52-64 | with distinct ids, the total of a prefix of the cross-sell ids is the sum of those variants' prices |
| `CrossSell.TotalOfInitialSelection` | frontend/templates/product/sections/CrossSellSection/index.tsx:37-64 | the initial total is the current price plus every cross-sell price |
| `CrossSell.DeselectCrossSells` | frontend/templates/product/sections/CrossSellSection/index.tsx:43-50 | toggling off each of a suffix of the cross-sell ids leaves only the current variant |
| `CrossSell.DeselectAllLeavesCurrent` | frontend/templates/product/sections/CrossSellSection/index.tsx:37-64 | deselecting every cross-sell variant leaves only the current variant, whose price is then the total |
| `CrossSell.CrossSellSection.constructor` | frontend/templates/product/sections/CrossSellSection/index.tsx:37-41 | the section starts with the initial selection |
| `CrossSell.CrossSellSection.HandleToggleVariant` | frontend/templates/product/sections/CrossSellSection/index.tsx:43-50 | a selected id is filtered out and an unselected one appended; only the toggled id changes membership |
| `CrossSell.CrossSellSection.Total` | frontend/templates/product/sections/CrossSellSection/index.tsx:52-64 | with non-negative prices the total is non-negative; for the initial selection with distinct ids it is the current price plus every cross-sell price |
| `CrossSell.SectionTotal` | frontend/templates/product/sections/CrossSellSection/index.tsx:52-81 | the section renders nothing exactly when there is no cross-sell variant, and otherwise shows the reduce's total |
| `CrossSell.Pricing` | frontend/templates/product/sections/CrossSellSection/index.tsx:426-463 | nothing without a price; otherwise the price, with the compare-at price struck through and the price highlighted exactly when a compare-at price is given |
| `DefaultLayout.PageTitle` | frontend/layouts/default/index.tsx:84-111 | a title element exists exactly when `includeTitle` (true by default); it holds the title, or `iFixit` for a missing or empty one |
| `DefaultLayout.NavLinkOf` | frontend/layouts/default/index.tsx:233-282 | only link subitems render, with their name and url; the link reloads the page exactly for `/Store`, and shows a description exactly when it is non-empty |
| `DefaultLayout.NavLinks` | frontend/layouts/default/index.tsx:231-284 | a submenu renders at most one link per subitem |
| `DefaultLayout.NavItemOf` | frontend/layouts/default/index.tsx:220-292 | an item renders exactly when it is a submenu that is not `null`, with its name and the links of its subitems |
| `DefaultLayout.NavItems` | frontend/layouts/default/index.tsx:219-293 | the header renders at most one item per menu item |
| `DefaultLayout.NavItemsAppend` | frontend/layouts/default/index.tsx:219-293 | the header items keep the order of the menu: rendering distributes over concatenation |
| `DefaultLayout.NavItemsOfOne` | frontend/layouts/default/index.tsx:220-224 | a single menu item shows exactly when it is a submenu that is not `null` |
| `DefaultLayout.NavLinksAppend` | frontend/layouts/default/index.tsx:231-238 | submenu links keep the order of the link subitems |
| `DefaultLayout.AsDrawerLinks` | frontend/layouts/default/index.tsx:389-403 | forgetting behaviour and description keeps one drawer link per desktop link |
| `DefaultLayout.DrawerLinkOf` | frontend/layouts/default/index.tsx:389-403 | a drawer link exists exactly for a link subitem, with its name and url |
| `DefaultLayout.DrawerLinks` | frontend/layouts/default/index.tsx:389-403 | a submenu gives at most one drawer link per subitem |
| `DefaultLayout.DrawerItemOf` | frontend/layouts/default/index.tsx:379-406 | a drawer item exists exactly for a submenu item that is not `null`, with its name and the drawer links of its subitems |
| `DefaultLayout.DrawerItems` | frontend/layouts/default/index.tsx:377-412 | the drawer shows at most one item per menu item |
| `DefaultLayout.AsDrawerItems` | frontend/layouts/default/index.tsx:377-412 | forgetting behaviour and description keeps one drawer item per desktop item |
| `DefaultLayout.AsDrawerItemsAppend` | frontend/layouts/default/index.tsx:377-412 | forgetting distributes over concatenation |
| `DefaultLayout.DrawerMatchesDesktop` | frontend/layouts/default/index.tsx:219-412 | the mobile drawer shows the same items and links as the desktop menu, in the same order, with only behaviour and description left off |
| `DefaultLayout.DrawerMatchesDesktopOne` | frontend/layouts/default/index.tsx:220-382 | the drawer and the desktop menu agree on one menu item |
| `DefaultLayout.DrawerItemsAppend` | frontend/layouts/default/index.tsx:377-412 | the drawer items keep the order of the menu |
| `DefaultLayout.DrawerItemsOfOne` | frontend/layouts/default/index.tsx:379-382 | one menu item gives its drawer item, or nothing |
| `DefaultLayout.DrawerLinksMatch` | frontend/layouts/default/index.tsx:231-403 | the drawer links of a submenu are its desktop links without behaviour and description |
| `DefaultLayout.NotificationCountBadge` | frontend/layouts/default/index.tsx:494-512 | no badge exactly at zero; `100+` above a hundred; else the count |
| `DefaultLayout.NotificationCountBadgeReadsBack` | frontend/layouts/default/index.tsx:509 | for counts from one to a hundred, the badge text parses back to the count |
| `DefaultLayout.NotificationsCount` | frontend/layouts/default/index.tsx:426 | a missing unread count is zero |
| `DefaultLayout.Labels` | frontend/layouts/default/index.tsx:439-483 | the labels of the user menu links, in order |
| `DefaultLayout.UserMenuLinks` | frontend/layouts/default/index.tsx:439-483 | four to six links, starting with notifications and the profile and ending with log out at `<origin>/Guide/logout`; every link starts with the origin |
| `DefaultLayout.HeaderUserMenuOf` | frontend/layouts/default/index.tsx:418-488 | without a user, a login link to `<origin>/Login`; with one, the user menu, flagged unread exactly for a positive count, with the count badge |
| `DefaultLayout.UserMenuLabels` | frontend/layouts/default/index.tsx:439-483 | the menu always offers notifications, profile, orders and log out, in that order; `My Team` shows exactly with a team and `Manage` exactly with a non-empty manage link |
| `DefaultLayout.MissingCountShowsNothing` | frontend/layouts/default/index.tsx:426-495 | a missing count shows neither the unread flag nor a badge |
| `ExportCsv.ProcessRecord` | backend/src/plugins/addons/server/services/bulk-operations/export-csv.ts:91-95 | the exported record has the original fields minus the three timestamps, plus `published`; other fields keep their values; `published` is `"true"` exactly for a truthy `publishedAt` and `"false"` otherwise |
| `ExportCsv.IsPublished` | backend/src/plugins/addons/server/services/bulk-operations/export-csv.ts:93 | a record without `publishedAt`, or with a null one, is a draft; a string timestamp publishes exactly when it is non-empty |
| `ExportCsv.ProcessRecordIgnoresTimestamps` | backend/src/plugins/addons/server/services/bulk-operations/export-csv.ts:91-95 | records that differ only in their timestamps, and agree on being published, export alike |
| `ExportCsv.ProcessRecordHasNoTimestamps` | backend/src/plugins/addons/server/services/bulk-operations/export-csv.ts:92 | no exported record carries `createdAt`, `updatedAt` or `publishedAt` |
| `ExportCsv.FindRecords` | backend/src/plugins/addons/server/services/bulk-operations/export-csv.ts:83-89 | a non-array result gives no record; an array gives one processed record per found record, in order |
| `ExportCsv.ExportFileName` | backend/src/plugins/addons/server/services/bulk-operations/export-csv.ts:41 | the name is at least 13 characters longer than the collection name |
| `ExportCsv.ExportFileNameParts` | backend/src/plugins/addons/server/services/bulk-operations/export-csv.ts:41 | the name reads `export-`, the collection name, `-`, the decimal timestamp and `.csv`, and the timestamp reads back from it |
| `ExportCsv.GetExportCsv` | backend/src/plugins/addons/server/services/bulk-operations/export-csv.ts:28-81 | an unknown collection fails with `Collection type "<uid>" not found` before any file; otherwise the file is `public/bulk-operations/<name>` of type `text/csv`, and the upload's url gives the result, a `null` upload the library error, and a rejected upload its own error |
| `ExportCsv.ExportCountIsFound` | backend/src/plugins/addons/server/services/bulk-operations/export-csv.ts:64-88 | a successful export counts the records found in an array, and none for a non-array result |
| `HeroSection.HeroTitleText` | frontend/app/collection/components/sections/hero-section/index.tsx:106-123 | the heading starts with the title, and is exactly the title on page one or below |
| `HeroSection.HeroTitlePageSuffix` | frontend/app/collection/components/sections/hero-section/index.tsx:114-120 | after page one the title is followed by ` - Page`, a no-break space and the page number, which parses back to the page |
| `HeroSection.IsPresentOfNullableString` | frontend/app/collection/components/sections/hero-section/index.tsx:65-90 | `isPresent` of a nullable prop holds exactly for a present, non-empty string |
| `HeroSection.BrandLogoOf` | frontend/app/collection/components/sections/hero-section/index.tsx:55-63 | corrected: the logo shows exactly when it is given with a non-zero width, with its url and width, and nothing shows otherwise |
| `HeroSection.BrandLogoSlotAsWritten` | frontend/app/collection/components/sections/hero-section/index.tsx:55 | as written: the stray text shows exactly for a given logo of width 0, and the logo shows exactly when the corrected logo does |
| `HeroSection.ZeroWidthLogoShowsStrayText` | frontend/app/collection/components/sections/hero-section/index.tsx:55 | a logo of width 0 renders the stray text `0` as written, where the corrected slot shows nothing |
| `HeroSection.BrandLogoSlotsAgree` | frontend/app/collection/components/sections/hero-section/index.tsx:55 | the corrected slot never holds stray text, and agrees with the as-written one whenever the width is not 0 |
| `HeroSection.HeroOf` | frontend/app/collection/components/sections/hero-section/index.tsx:21-104 | the heading reads as `HeroTitle` gives it, whatever the layout; the background shows exactly when it is given; the logo is the corrected one |
| `HeroSection.HeroGating` | frontend/app/collection/components/sections/hero-section/index.tsx:29-98 | with a background, a non-empty tagline and description show on every page; without one they show only on page one, and only then is the description collapsible; the description shown is the Markdown of the given text |
| `HeroSection.BrandLogoNeedsBackground` | frontend/app/collection/components/sections/hero-section/index.tsx:34-99 | without a background image the brand logo never shows, whatever its width |
| `LayoutApi.ConvertItems` | frontend/lib/api/layout/index.ts:70-117 | the map converts each raw item in place, one result per item |
| `LayoutApi.ConvertItem` | frontend/lib/api/layout/index.ts:70-117 | an item is dropped exactly when it is `null` or a submenu whose submenu is `null`; a kept item keeps its name |
| `LayoutApi.GetMenu` | frontend/lib/api/layout/index.ts:67-120 | no more items than the raw menu; every item is the conversion of a raw item, and every raw item that converts is kept |
| `LayoutApi.ConvertItemShape` | frontend/lib/api/layout/index.ts:74-113 | each kept item keeps its name and kind; a link carries rendered Markdown exactly when its description is non-empty; an image link carries the converted image; a product-list link points to `/collections/<handle>`, or to `#` without a product list; a submenu is converted recursively |
| `LayoutApi.GetMenuAppend` | frontend/lib/api/layout/index.ts:67-120 | `getMenu` keeps the order of the items: the menu of two item lists, one after the other, is the first menu followed by the second |
| `LayoutApi.GetMenuKeepsAll` | frontend/lib/api/layout/index.ts:67-120 | a menu with no `null` item and no empty submenu keeps every item, each converted in place |
| `LayoutApi.MenuOf` | frontend/lib/api/layout/index.ts:26-31 | a footer menu is present exactly when the raw menu is, and then it is its converted menu |
| `LayoutApi.GetLayoutProps` | frontend/lib/api/layout/index.ts:18-37 | the stores are the non-null entries of the store list, and an empty list when it is missing |
| `LayoutApi.GetLayoutPropsFooter` | frontend/lib/api/layout/index.ts:19-32 | with a current store, each of the four footer menus is present exactly when that store's footer has it, and is then that raw menu converted by `getMenu`; the social media accounts are the store's, or none |
| `LayoutApi.GetLayoutPropsWithoutStore` | frontend/lib/api/layout/index.ts:19-32 | without a current store the footer has no menus and no social media accounts |
| `NotifyMe.NotifyMeForm.constructor` | frontend/templates/product/sections/ProductOverviewSection/AddToCart/NotifyMeForm.tsx:29-33 | the form starts idle, with no status set and no request sent |
| `NotifyMe.NotifyMeForm.SetStatus` | frontend/templates/product/sections/ProductOverviewSection/AddToCart/NotifyMeForm.tsx:31-33 | setting the status records it and sends nothing |
| `NotifyMe.NotifyMeForm.HandleFormSubmit` | frontend/templates/product/sections/ProductOverviewSection/AddToCart/NotifyMeForm.tsx:37-65 | a submit sets Submitting first and then exactly one final status, the one `SubmitOutcome` names; a request with the sku, the shop domain and the email is sent exactly when the email entry is text |
| `NotifyMe.SubmitOutcome` | frontend/templates/product/sections/ProductOverviewSection/AddToCart/NotifyMeForm.tsx:39-64 | a submit ends Submitted exactly when the email is text and the request succeeds, and Error exactly otherwise |
| `NotifyMe.SubmitSettles` | frontend/templates/product/sections/ProductOverviewSection/AddToCart/NotifyMeForm.tsx:61-64 | a submit never ends idle or submitting |
| `NotifyMe.ViewOf` | frontend/templates/product/sections/ProductOverviewSection/AddToCart/NotifyMeForm.tsx:67-122 | the success alert shows exactly once submitted; otherwise the input and button are disabled, and the button loading, exactly while submitting, and the field is invalid, with `Request failed`, exactly after an error |
| `NotifyMe.ViewDuringAndAfterSubmit` | frontend/templates/product/sections/ProductOverviewSection/AddToCart/NotifyMeForm.tsx:96-122 | while submitting the controls are disabled with no error; after a failed submit they are enabled again and show the error |
| `Piwik.CustomDimensionsForEnv` | packages/analytics/piwik/index.tsx:135-152 | custom dimensions exist exactly for `prod` and `dev`, both with store dimension 1 and language dimension 2 |
| `Piwik.AddItemCommands` | packages/analytics/piwik/index.tsx:75-120 | one `addEcommerceItem` per cart line, in order, with its itemcode, name, unit price and quantity |
| `Piwik.AddItemCommand` | packages/analytics/piwik/index.tsx:75-83 | one `addEcommerceItem` with the line's itemcode, name, unit price amount and quantity |
| `Piwik.SumUnitPrices` | packages/analytics/piwik/index.tsx:84 | an empty cart totals 0, and non-negative prices give a non-negative total |
| `Piwik.CartChangeCommands` | packages/analytics/piwik/index.tsx:70-86 | the commands start with `clearEcommerceCart`; there is one command for an empty cart and two more than the lines otherwise |
| `Piwik.CartChangeShape` | packages/analytics/piwik/index.tsx:70-86 | a cart change clears the cart first; an empty cart pushes nothing else; a non-empty one adds each line in order and then reports the total, once and last |
| `Piwik.NonEmptyCartChange` | packages/analytics/piwik/index.tsx:70-86 | for a non-empty cart each line is added in order after the clear, the last command reports the sum of unit prices, and no earlier command reports a total |
| `Piwik.UnitPriceSumIgnoresQuantity` | packages/analytics/piwik/index.tsx:84 | carts whose lines have the same prices, whatever their quantities, report the same total |
| `Piwik.CartTotalIgnoresQuantity` | packages/analytics/piwik/index.tsx:70-86 | for two non-empty carts whose lines differ only in their quantities, the last command of both cart changes is the same total update |
| `Piwik.PiwikQueue.constructor` | packages/analytics/piwik/index.tsx:8 | the tracker queue starts empty |
| `Piwik.PiwikQueue.Push` | packages/analytics/piwik/index.tsx:8 | a push appends one command and changes nothing else |
| `Piwik.PiwikQueue.TrackPageViewOf` | packages/analytics/piwik/index.tsx:13-17 | pushes the custom url, the document title and the page view, in that order |
| `Piwik.PiwikQueue.TrackPreferredStore` | packages/analytics/piwik/index.tsx:19-29 | pushes the store host as dimension 1 exactly when there is a window and the environment has dimensions, and nothing otherwise |
| `Piwik.PiwikQueue.TrackPreferredLanguage` | packages/analytics/piwik/index.tsx:31-43 | pushes the language as dimension 2 exactly when there is a window and the environment has dimensions, and nothing otherwise |
| `Piwik.PiwikQueue.TrackEcommerceView` | packages/analytics/piwik/index.tsx:60-68 | pushes one `setEcommerceView` with the sku, name, category and price amount |
| `Piwik.PiwikQueue.TrackCartChange` | packages/analytics/piwik/index.tsx:70-86 | the queue grows by exactly the cart-change commands |
| `ProductGallery.LinkedVariant` | frontend/templates/product/sections/ProductSection/ProductGallery.tsx:222-224 | an image is linked to a variant exactly when it has a variant id that a product variant has; a missing variant id matches none |
| `ProductGallery.Shown` | frontend/templates/product/sections/ProductSection/ProductGallery.tsx:221-226 | an image is shown exactly when it has no variant id, names an unknown variant, or names the selected one |
| `ProductGallery.VariantImages` | frontend/templates/product/sections/ProductSection/ProductGallery.tsx:219-228 | the gallery keeps exactly the shown images: none made up, none left out |
| `ProductGallery.VariantImagesAppend` | frontend/templates/product/sections/ProductSection/ProductGallery.tsx:221-226 | the filter keeps the images' order: it distributes over concatenation |
| `ProductGallery.FindIndex` | frontend/templates/product/sections/ProductSection/ProductGallery.tsx:239-241 | the first image with the id, or -1 when no image has it |
| `ProductGallery.CurrentImageId` | frontend/templates/product/sections/ProductSection/ProductGallery.tsx:234-235 | the selected image id when there is one, else the first image's id, and none for no images |
| `ProductGallery.CurrentImageIndex` | frontend/templates/product/sections/ProductSection/ProductGallery.tsx:230-246 | the index is within the images (0 for none), and a non-zero index is an image with the current id |
| `ProductGallery.CurrentImageIndexIsFirst` | frontend/templates/product/sections/ProductSection/ProductGallery.tsx:234-243 | the index is the first position of the selected id, or of the first image's id; it falls back to 0 only when no image has that id |
| `ProductGallery.CurrentImageIndexDefault` | frontend/templates/product/sections/ProductSection/ProductGallery.tsx:235 | without a selected id the first image is current |
| `ProductGallery.ZoomAllowed` | frontend/templates/product/sections/ProductSection/ProductGallery.tsx:53-59 | zoom is allowed exactly when no product image is too small for the container |
| `ProductGallery.TooSmall` | frontend/templates/product/sections/ProductSection/ProductGallery.tsx:55-57 | an image without a width or height is too small; an image fits exactly when both are non-zero and its area is at least the container's |
| `ProductGallery.TooSmallForLargerContainer` | frontend/templates/product/sections/ProductSection/ProductGallery.tsx:55-57 | an image too small for a container is too small for every container at least as wide and as high |
| `ProductGallery.ZoomAllowedMeansLargeEnough` | frontend/templates/product/sections/ProductSection/ProductGallery.tsx:55-57 | with zoom allowed, every image has a non-zero width and height and at least the container's area |
| `ProductGallery.InnerEnableZoom` | frontend/templates/product/sections/ProductSection/ProductGallery.tsx:40-66 | zoom is on exactly when it is requested, a container exists, and no image is too small for that container |
| `ProductGallery.RenderModeOf` | frontend/templates/product/sections/ProductSection/ProductGallery.tsx:108-142 | a carousel for more than one image, the single image for one, the placeholder for none |
| `ProductGallery.ThumbnailsOf` | frontend/templates/product/sections/ProductSection/ProductGallery.tsx:145-214 | thumbnails show exactly when asked for with more than one image; the left fade shows past the first snap when more than six images exist, and the right fade while at least six thumbnails remain to the right |
| `ProductGallery.NoFadesWhenAllFit` | frontend/templates/product/sections/ProductSection/ProductGallery.tsx:190-207 | when all thumbnails fit, neither fade shows at any snap position |
| `ProductGallery.FadesAtStart` | frontend/templates/product/sections/ProductSection/ProductGallery.tsx:190-207 | at the first snap position only the right fade can show, and it does when more thumbnails exist than fit |
| `ProductGrid.Percentage` | frontend/features/productList/components/sections/FilterableProductsSection/ProductGrid.tsx:42-51 | the percentage is 0 for a hit that is not discounted, and otherwise the discount function of the price and compare-at price in cents |
| `ProductGrid.BadgeOf` | frontend/features/productList/components/sections/FilterableProductsSection/ProductGrid.tsx:53-66 | the sold-out badge shows exactly for a hit with no stock; the discount badge, with the percentage, exactly for a discounted hit in stock; otherwise no badge |
| `ProductGrid.ProductUrl` | frontend/features/productList/components/sections/FilterableProductsSection/ProductGrid.tsx:70 | the link is the store product prefix followed by the sku |
| `ProductGrid.ProductUrlInjective` | frontend/features/productList/components/sections/FilterableProductsSection/ProductGrid.tsx:70 | the sku reads back from the link, so distinct skus get distinct links |
| `ProductGrid.GridItemOf` | frontend/features/productList/components/sections/FilterableProductsSection/ProductGrid.tsx:41-84 | the card shows the hit's image, title and prices, the badge and link above, and a fixed rating of 4 with 102 reviews |
| `ProductGrid.BadgePrecedence` | frontend/features/productList/components/sections/FilterableProductsSection/ProductGrid.tsx:60-66 | sold out wins over a discount, and a hit without a discount gets the same badge whatever the percentage function |
| `ProductList.ItemImageOf` | features/collection/components/sections/FilterableProductsSection/ProductList.tsx:65-77 | a missing image shows the placeholder image; a present image shows through the Shopify image, which falls back to the placeholder url for an empty one |
| `ProductList.ItemImageNeverEmpty` | features/collection/components/sections/FilterableProductsSection/ProductList.tsx:19-77 | whatever the hit, the image source shown is never empty |
| `ProductList.StockBadges` | features/collection/components/sections/FilterableProductsSection/ProductList.tsx:108-139 | a hit in stock shows the lifetime-warranty and ship-today badges, a hit without stock only `Out of stock` |
| `ProductList.StockText` | features/collection/components/sections/FilterableProductsSection/ProductList.tsx:161-168 | one to nine items give the low-stock notice, with its template's line breaks and indentation; any other count gives `<count> in stock` |
| `ProductList.StockTextCarriesCount` | features/collection/components/sections/FilterableProductsSection/ProductList.tsx:162-167 | the count reads from both texts: right after `Only ` in the notice, and at the start of the other text |
| `ProductList.StarFades` | features/collection/components/sections/FilterableProductsSection/ProductList.tsx:178-195 | five stars, the i-th faded exactly when i + 1 exceeds the value |
| `ProductList.BrightStarsAreValue` | features/collection/components/sections/FilterableProductsSection/ProductList.tsx:182-192 | the number of bright stars is the value clamped to 0..5 |
| `ProductList.DefaultAndListRating` | features/collection/components/sections/FilterableProductsSection/ProductList.tsx:142-179 | the default value of five fades no star; the list's value of four fades only the last |
| `ProductList.ListItemOf` | features/collection/components/sections/FilterableProductsSection/ProductList.tsx:42-172 | the old price is struck through and the price highlighted exactly for a discounted hit; the item uses the image, badges, stock text and a rating of four above |
| `SearchInput.SearchedValue` | frontend/features/productList/components/sections/FilterableProductsSection/SearchInput.tsx:19-41 | the searched value is at most 100 characters: a longer value is cut to its first 100, a shorter one passes unchanged |
| `SearchInput.SearchedValueIdempotent` | frontend/features/productList/components/sections/FilterableProductsSection/SearchInput.tsx:36-40 | the searched value is a prefix of what was typed, and cutting it again changes nothing |
| `SearchInput.ClearSearch` | frontend/features/productList/components/sections/FilterableProductsSection/SearchInput.tsx:25-30 | clearing searches the empty query |
| `SearchInput.ClearButtonFor` | frontend/features/productList/components/sections/FilterableProductsSection/SearchInput.tsx:59-64 | the clear button is disabled exactly for an empty query, and visible exactly when enabled |
| `SearchInput.ClearDisablesButton` | frontend/features/productList/components/sections/FilterableProductsSection/SearchInput.tsx:25-64 | after clearing, the clear button is disabled and hidden |
| `ProductListView.CurrentProductList` | frontend/templates/product-list/ProductListView.tsx:33-35 | the item-type list when there is one, else the page's own list |
| `ProductListView.HeroTitle` | frontend/templates/product-list/ProductListView.tsx:68 | the hero title is `h1` when present, even empty, and the list title only when it is missing |
| `ProductListView.TrimAll` | frontend/templates/product-list/ProductListView.tsx:93 | each piece trimmed, in place |
| `ProductListView.RelatedPostsTags` | frontend/templates/product-list/ProductListView.tsx:91-95 | the tags start with the list title; a missing tags string adds nothing, a present one adds its comma-separated pieces, trimmed |
| `ProductListView.RelatedPostsTagsTrimmed` | frontend/templates/product-list/ProductListView.tsx:92-94 | no tag after the title has white space at either end, and a present tags string, even an empty one, adds at least one tag |
| `ProductListView.RelatedPostsTagsRoundTrip` | frontend/templates/product-list/ProductListView.tsx:92-94 | for a tags string without white space the added tags are exactly its comma-separated pieces, and joining them with commas gives the string back |
| `ProductListView.SectionView` | frontend/templates/product-list/ProductListView.tsx:78-119 | a section renders nothing exactly when its type is unknown or it is a featured-lists section with no lists; a warranty section renders its banner, a related-posts section its tags, a featured-lists section its title and lists |
| `ProductListView.SectionViews` | frontend/templates/product-list/ProductListView.tsx:78 | one view per section, in order |
| `ProductListView.View` | frontend/templates/product-list/ProductListView.tsx:37-123 | the page always starts with the search configuration of 24 hits per page; under server rendering it shows only that and the filterable products of the current list |
| `ProductListView.ViewSections` | frontend/templates/product-list/ProductListView.tsx:53-123 | outside server rendering the hero has the current list's title; the children section shows exactly when the current list has children; the filterable products of the page's own list follow; then one view per section that renders, in order |
| `ProductListView.NoChildrenSectionAmongSections` | frontend/templates/product-list/ProductListView.tsx:78-119 | no section renders a children section |
| `ProductModel.GetRedirect` | frontend/models/product/server.ts:61-73 | a product redirect value (even an empty one) wins; otherwise the first URL redirect's target, if any; every redirect is typed `ProductRedirect` |
| `ProductModel.FindProduct` | frontend/models/product/server.ts:51-58 | a redirect wins over the product; without a redirect the product is returned, and nothing exactly when there is none |
| `ProductModel.FindProductRedirectTypename` | frontend/models/product/server.ts:64-72 | every redirect `findProduct` returns has the `__typename` `ProductRedirect` |
| `ProductServer.Names` | frontend/templates/product/server.tsx:50 | the names of the parameters, in order |
| `ProductServer.FirstWith` | frontend/templates/product/server.tsx:50 | the first pair with the name, and nothing exactly when `has` is false |
| `ProductServer.Has` | frontend/templates/product/server.tsx:50 | `has` holds exactly when some pair has the name |
| `ProductServer.FirstWithAppend` | frontend/templates/product/server.tsx:49-53 | appending a pair keeps the first pair of a name already present, and a new name's first pair is the appended one |
| `ProductServer.HasOfPrefix` | frontend/templates/product/server.tsx:49-53 | a name present in a parameter list stays present once more pairs are appended |
| `ProductServer.MergeParams` | frontend/templates/product/server.tsx:48-53 | the request's `forEach` loop computes the merged parameters |
| `ProductServer.Merged` | frontend/templates/product/server.tsx:46-53 | the destination's parameters stay in front, and at most one pair per request pair is appended |
| `ProductServer.MergedShape` | frontend/templates/product/server.tsx:46-53 | the merge keeps the destination's own parameters in front, unchanged; afterwards every request name is present; each appended pair is the first request pair of a name the destination lacked, and each such name is appended once |
| `ProductServer.DomainsOfCodes` | frontend/templates/product/server.tsx:67-71 | the codes of the domain map are exactly the codes of the enabled domains |
| `ProductServer.CodeToDomain` | frontend/templates/product/server.tsx:67-71 | no enabled domains give the empty map; otherwise every code maps to the domain of an enabled entry with that code |
| `ProductServer.DomainsOf` | frontend/templates/product/server.tsx:68-70 | every code of the reduce's map maps to the domain of one of its entries with that code |
| `ProductServer.DomainsOfLastWins` | frontend/templates/product/server.tsx:68-70 | a code repeated among the enabled domains maps to the domain of its last entry |
| `ProductServer.StoreWithProductUrl` | frontend/templates/product/server.tsx:72-81 | the default store's url becomes its own origin followed by `/products/<handle>`, another store's its code's domain followed by the same; a store without a non-empty domain is unchanged; code, name and currency are always kept |
| `ProductServer.StoresWithProductUrls` | frontend/templates/product/server.tsx:72-81 | one store for each store, in order, each as above |
| `ProductServer.Decide` | frontend/templates/product/server.tsx:14-62 | a missing handle throws; a redirect whose typename is `ShopifyProductRedirect` redirects permanently to its target, one of another typename throws when its tags are read; nothing found is not found |
| `ProductServer.GetServerSidePropsAsWritten` | frontend/templates/product/server.tsx:31 | as written, a found redirect redirects exactly when its typename is `ShopifyProductRedirect` |
| `ProductServer.RedirectThrowsAsWritten` | frontend/templates/product/server.tsx:31-62 | every redirect `findProduct` returns makes the page as written throw instead of redirecting |
| `ProductServer.GetServerSideProps` | frontend/templates/product/server.tsx:14-96 | a missing handle throws, and a missing product is not found |
| `ProductServer.RedirectsFirst` | frontend/templates/product/server.tsx:31-38 | with the corrected comparison the page redirects permanently to every redirect `findProduct` returns, before any other check, and never throws for a present handle |
| `ProductServer.ProductDecision` | frontend/templates/product/server.tsx:46-95 | a product with a redirect url redirects to it with its own query parameters kept first; any other product gets its props with one store per store, and the robots header exactly when it is tagged `Pro Only` |
| `ProductServer.ProductProps` | frontend/templates/product/server.tsx:46-95 | a product with a redirect url redirects permanently to that url's path, keeping its own query parameters in front; any other product is rendered, with one store per store and the robots header exactly when tagged `Pro Only` |
| `Rating.HalfStars` | frontend/components/ui/Rating.tsx:16 | `Math.round(value * 2)` for a rational value: the nearest whole number of half stars, with halves rounded up |
| `Rating.DefaultHalfStars` | frontend/components/ui/Rating.tsx:14-16 | the default value 5 is ten half stars |
| `Rating.Stars` | frontend/components/ui/Rating.tsx:11-30 | five stars, star `i` showing the appearance the branches give it |
| `Rating.StarClassification` | frontend/components/ui/Rating.tsx:21-26 | star `i` is full exactly when the half stars reach `2i`, half exactly when they are `2i - 1`, and empty exactly when they are fewer |
| `Rating.StarsOrdered` | frontend/components/ui/Rating.tsx:20-30 | the stars never get fuller from left to right, and at most one is half |
| `Rating.FullStarCount` | frontend/components/ui/Rating.tsx:16-26 | the number of full stars is the whole stars of the rounded value, clamped to 0..5 |
| `Rating.CountFullFive` | frontend/components/ui/Rating.tsx:11 | the full stars of five stars are counted one by one |
| `Rating.DefaultRatingIsFull` | frontend/components/ui/Rating.tsx:14-26 | with no value the rating shows five full stars |
| `SearchProducts.AsList` | frontend/app/collection/queries/search-products.ts:90-92 | an array parameter is kept as it is, and a single value becomes a one-element list |
| `SearchProducts.ParamTruthy` | frontend/app/collection/queries/search-products.ts:89 | a parameter passes `if (filterValues)` exactly when its JavaScript value is truthy |
| `SearchProducts.RefinementsFor` | frontend/app/collection/queries/search-products.ts:87-94 | at most one refinement per facet, each for one of the facets |
| `SearchProducts.SupportedFacetsDistinct` | frontend/app/collection/queries/search-products.ts:10-21 | the ten supported facets are pairwise distinct |
| `SearchProducts.RefinementsForEntries` | frontend/app/collection/queries/search-products.ts:87-94 | every refinement entry is a supported facet whose parameter is truthy and holds that parameter as a list; every such facet has an entry |
| `SearchProducts.RefinementsForKeysUnique` | frontend/app/collection/queries/search-products.ts:85-94 | for distinct facets, no facet gets two entries |
| `SearchProducts.PageOf` | frontend/app/collection/queries/search-products.ts:83 | a missing or empty `p` is page 1; any other `p` is what `parseInt` reads from it |
| `SearchProducts.PageOfDecimal` | frontend/app/collection/queries/search-products.ts:83 | a page written in decimal reads back as the same page |
| `SearchProducts.ParseSearchParams` | frontend/app/collection/queries/search-products.ts:82-97 | the loop over the supported facets builds the refinements in facet order; the page is as above, and the query is `q` or the empty string |
| `SearchProducts.CreateFacetFilters` | frontend/app/collection/queries/search-products.ts:70-74 | one group per refinement, with as many filters as values, each filter the facet, a colon and the value |
| `SearchProducts.BeforeColon` | frontend/app/collection/queries/search-products.ts:72 | the text before the first colon, a prefix of the input without a colon |
| `SearchProducts.BeforeColonOfPrefixed` | frontend/app/collection/queries/search-products.ts:72 | for a facet without a colon, `facet:value` splits back into the facet and the value |
| `SearchProducts.SupportedFacetsHaveNoColon` | frontend/app/collection/queries/search-products.ts:10-21 | no supported facet contains a colon |
| `SearchProducts.FacetFiltersRoundTrip` | frontend/app/collection/queries/search-products.ts:70-74 | every facet filter of a colon-free facet gives back its facet and its value |
| `SearchProducts.CreateFilters` | frontend/app/collection/queries/search-products.ts:99-119 | the public filters always come first; parts and tools lists add their Main Category clause after ` AND `, and other list types add nothing |
| `SearchProducts.CategoryClause` | frontend/app/collection/queries/search-products.ts:110-117 | a Main Category clause exists exactly for the parts and tools list types |
| `SearchProducts.BuildSearchRequest` | frontend/app/collection/queries/search-products.ts:37-68 | the request searches with the parsed query, the filters of the list type, the facet filters of the parsed refinements, all supported facets and 24 hits per page, and it reports the parsed page |
| `Sorting.Insert` | packages/cart-sdk/hooks/use-add-to-cart.ts:88-90 | inserting one element into a run adds exactly one element |
| `Sorting.Sort` | packages/cart-sdk/hooks/use-add-to-cart.ts:88-90 | the stable sort keeps the number of elements |
| `Sorting.InsertPermutes` | packages/cart-sdk/hooks/use-add-to-cart.ts:88-90 | inserting adds exactly the inserted element to the multiset of the run |
| `Sorting.SortPermutes` | packages/cart-sdk/hooks/use-add-to-cart.ts:88-90 | the sort only reorders: the result is a permutation of the input |
| `Sorting.InsertSorted` | packages/cart-sdk/hooks/use-add-to-cart.ts:88-90 | inserting into a sorted run under a total preorder keeps it sorted |
| `Sorting.SortSorted` | packages/cart-sdk/hooks/use-add-to-cart.ts:88-90 | under a comparator that is a total preorder on the input, the result is sorted |
| `Sorting.InsertHead` | frontend/templates/troubleshooting/tocContext.tsx:326-332 | inserting into a sorted run puts the new element first only when the old head is not below or equal to it |
| `Sorting.FirstMinimalKept` | frontend/templates/troubleshooting/tocContext.tsx:326-332 | a first minimal element not greater than an appended element stays first minimal |
| `Sorting.FirstMinimalLast` | frontend/templates/troubleshooting/tocContext.tsx:326-332 | an appended element strictly below the first minimal element becomes first minimal |
| `Sorting.SortHeadIsFirstMinimal` | frontend/templates/troubleshooting/tocContext.tsx:326-332 | stability at the head: the first element of the sorted result is the earliest of the minimal input elements |
| `Sorting.InsertLast` | packages/cart-sdk/hooks/use-add-to-cart.ts:88-90 | moving the last element of a prefix back into the sorted run in place gives the insertion of that element, and leaves every later cell alone |
| `Sorting.InsertionSort` | packages/cart-sdk/hooks/use-add-to-cart.ts:88-90 | the in-place sort leaves the array holding the stable sort of its original contents |
| `Strings.DigitChar` | frontend/app/collection/components/sections/hero-section/index.tsx:118 | a digit below ten is written as a decimal digit character |
| `Strings.DigitValue` | frontend/app/collection/queries/search-products.ts:83 | a decimal digit character reads as a digit below ten |
| `Strings.DigitRoundTrip` | frontend/app/collection/components/sections/hero-section/index.tsx:118 | reading a written digit gives the digit back |
| `Strings.NatToString` | frontend/app/collection/components/sections/hero-section/index.tsx:118 | the decimal text of a natural number is a non-empty run of digits |
| `Strings.IntToString` | frontend/app/collection/components/sections/hero-section/index.tsx:118 | decimal text is non-empty, starts with `-` exactly for a negative number, and is otherwise digits |
| `Strings.NatToStringLength` | frontend/templates/product/hooks/useWorkbenchCompatibility.tsx:38 | a number from 10^(k-1) up to below 10^k is written with exactly k digits |
| `Strings.DigitsValueOfNatToString` | frontend/app/collection/components/sections/hero-section/index.tsx:118 | the digits of a natural number's decimal text read back as the number |
| `Strings.TrimStart` | frontend/templates/product-list/ProductListView.tsx:93 | the text left after dropping the leading whitespace, a suffix of the input that starts with no whitespace |
| `Strings.TrimEnd` | frontend/templates/product-list/ProductListView.tsx:93 | the text left after dropping the trailing whitespace, a prefix of the input that ends with no whitespace |
| `Strings.Trim` | frontend/templates/product-list/ProductListView.tsx:93 | the trimmed text is no longer than the input and a prefix of the text left after dropping leading white space |
| `Strings.TrimmedHasNoOuterWhitespace` | frontend/templates/product-list/ProductListView.tsx:93 | a trimmed tag has no whitespace at either end |
| `Strings.TrimIdempotent` | frontend/templates/product-list/ProductListView.tsx:93 | trimming twice is trimming once |
| `Strings.TrimOfNoWhitespace` | frontend/templates/product-list/ProductListView.tsx:93 | a tag without whitespace is its own trim |
| `Strings.DigitPrefix` | frontend/app/collection/queries/search-products.ts:83 | the leading digits `parseInt` reads: a run of digits that is a prefix of the input, stopped by a character that is not a digit |
| `Strings.DigitPrefixOfDigits` | frontend/app/collection/queries/search-products.ts:83 | a run of digits is read entirely |
| `Strings.TrimStartOfNonBlank` | frontend/app/collection/queries/search-products.ts:83 | text starting with a non-whitespace character has nothing to trim at the start |
| `Strings.ParseInt` | frontend/app/collection/queries/search-products.ts:83 | empty text gives `NaN`, and a number is read only from text that holds a decimal digit |
| `Strings.ParseIntOfDigits` | frontend/app/collection/queries/search-products.ts:83 | `parseInt` of a run of digits is its decimal value |
| `Strings.ParseIntOfNegatedDigits` | frontend/app/collection/queries/search-products.ts:83 | `parseInt` of a minus sign and a run of digits is minus their decimal value |
| `Strings.ParseIntOfIntToString` | frontend/app/collection/queries/search-products.ts:83 | `parseInt` reads every integer's decimal text back as the integer |
| `Strings.Split` | frontend/templates/product-list/ProductListView.tsx:93 | splitting always gives at least one piece |
| `Strings.Join` | packages/analytics/index.tsx:48-49 | joining nothing gives the empty string, and the first part starts the joined text |
| `Strings.SplitPiecesAvoidSeparator` | frontend/templates/product-list/ProductListView.tsx:93 | no piece contains the separator |
| `Strings.SplitPiecesFromString` | frontend/templates/product-list/ProductListView.tsx:93 | every character of a piece comes from the split text |
| `Strings.JoinSplit` | frontend/templates/product-list/ProductListView.tsx:93 | joining the pieces with the separator gives the split text back |
| `Strings.LexLeTotal` | packages/cart-sdk/hooks/use-add-to-cart.ts:89 | any two item codes are ordered one way or the other |
| `Strings.LexLeTransitive` | packages/cart-sdk/hooks/use-add-to-cart.ts:89 | the order of item codes is transitive |
| `Strings.LexLeAntisymmetric` | packages/cart-sdk/hooks/use-add-to-cart.ts:89 | two item codes ordered both ways are equal |
| `TocContext.Keys` | frontend/templates/troubleshooting/tocContext.tsx:30 | the keys of the registry are the records' ids, in insertion order |
| `TocContext.IndexOf` | frontend/templates/troubleshooting/tocContext.tsx:98 | the position of a key, a position holding that key, or -1 exactly when the key is absent |
| `TocContext.Lookup` | frontend/templates/troubleshooting/tocContext.tsx:98-180 | `items[id]` is a stored record with that id, present exactly when the key is |
| `TocContext.Assign` | frontend/templates/troubleshooting/tocContext.tsx:110-157 | assigning under an existing key keeps the key order, and a new key goes last |
| `TocContext.Delete` | frontend/templates/troubleshooting/tocContext.tsx:120-124 | deleting a missing key changes nothing |
| `TocContext.LookupAssign` | frontend/templates/troubleshooting/tocContext.tsx:108-161 | after assigning, keys stay unique, the key holds the assigned record, and every other key holds what it held |
| `TocContext.IndexOfUnique` | frontend/templates/troubleshooting/tocContext.tsx:98 | with unique keys, the position holding a key is the one the lookup finds |
| `TocContext.DeleteShape` | frontend/templates/troubleshooting/tocContext.tsx:122 | removing one position shifts later records down by one and keeps earlier ones |
| `TocContext.DeleteAtKeepsUnique` | frontend/templates/troubleshooting/tocContext.tsx:122 | removing a position keeps keys unique and drops the key stored there |
| `TocContext.DeleteAtKeepsOthers` | frontend/templates/troubleshooting/tocContext.tsx:122 | removing a position leaves every other key's lookup unchanged |
| `TocContext.LookupDelete` | frontend/templates/troubleshooting/tocContext.tsx:120-124 | deleting keeps keys unique, removes the key, and leaves every other key's lookup unchanged |
| `TocContext.CreateRecord` | frontend/templates/troubleshooting/tocContext.tsx:69-81 | a new record keeps the title and id, starts inactive without a buffer, and holds the given ref or an empty one |
| `TocContext.CreateTOCItems` | frontend/templates/troubleshooting/tocContext.tsx:83-90 | the initial registry has unique keys |
| `TocContext.CreateTOCItemsKeys` | frontend/templates/troubleshooting/tocContext.tsx:83-90 | its keys are exactly the given ids, and every record starts inactive with an empty ref and no buffer |
| `TocContext.CreateTOCItemsKeySet` | frontend/templates/troubleshooting/tocContext.tsx:87-89 | a key is in the initial registry exactly when some given record has that id |
| `TocContext.CreateTOCItemsFresh` | frontend/templates/troubleshooting/tocContext.tsx:84-86 | every initial record is inactive, with an empty ref and no buffer |
| `TocContext.AssignRecords` | frontend/templates/troubleshooting/tocContext.tsx:110 | after assignment every record is the assigned one or the one already at that position |
| `TocContext.UpdateTOCItemRef` | frontend/templates/troubleshooting/tocContext.tsx:92-118 | a missing id returns the registry unchanged; the keys never change |
| `TocContext.UpdateTOCItemRefEntries` | frontend/templates/troubleshooting/tocContext.tsx:108-117 | for a present id, that record gets the new ref (or keeps its own) and the buffer, and every other key is unchanged |
| `TocContext.ScrollToAsWritten` | frontend/templates/troubleshooting/tocContext.tsx:49-67 | as written: no element does nothing; otherwise it scrolls to the element's top plus the buffer, and it pushes the hash whenever the element has an id, whatever `addIdToUrl` says |
| `TocContext.AddIdToUrlFalseIgnored` | frontend/templates/troubleshooting/tocContext.tsx:61 | asking for `addIdToUrl: false` still pushes `#step-1` for an element with id `step-1` |
| `TocContext.ScrollTo` | frontend/templates/troubleshooting/tocContext.tsx:49-67 | corrected: as above, but the hash `#<id>` is pushed exactly when the element has an id and `addIdToUrl` is not `false` |
| `TocContext.ScrollToAgrees` | frontend/templates/troubleshooting/tocContext.tsx:61 | the corrected and the as-written scroll agree on every call that does not pass `addIdToUrl: false` |
| `TocContext.RecordScrollTo` | frontend/templates/troubleshooting/tocContext.tsx:78-115 | a record scrolls to its element's top plus its stored buffer, or 0 when it has none, and does nothing without an element |
| `TocContext.TopPreorder` | frontend/templates/troubleshooting/tocContext.tsx:326-332 | comparing records by top is total and transitive, so the sort it drives is well defined |
| `TocContext.Top` | frontend/templates/troubleshooting/tocContext.tsx:328-329 | a record without an element has top 0, and otherwise its element's offset |
| `TocContext.SortVertically` | frontend/templates/troubleshooting/tocContext.tsx:326-332 | sorting in place gives the stable sort by top: sorted by top and a permutation of the records |
| `TocContext.Visible` | frontend/templates/troubleshooting/tocContext.tsx:335-362 | a visible record has an element; one whose top is below the scroll position is visible; one scrolled past that fits in the viewport is not |
| `TocContext.VisibleRecords` | frontend/templates/troubleshooting/tocContext.tsx:335-362 | the filter keeps records of the registry that are visible, and keeps every visible one |
| `TocContext.FirstMinimalVisibleIsLowest` | frontend/templates/troubleshooting/tocContext.tsx:363-366 | the earliest visible record with the smallest top has an element and a top no greater than any visible record's |
| `TocContext.ClosestOf` | frontend/templates/troubleshooting/tocContext.tsx:334-369 | nothing exactly when no record is visible; otherwise a visible record of the registry with an element, the smallest top, and the earliest such record |
| `TocContext.GetClosest` | frontend/templates/troubleshooting/tocContext.tsx:334-369 | filtering, sorting the visible records in place and taking the first gives that record |
| `TocContext.MarkedActiveIsClosest` | frontend/templates/troubleshooting/tocContext.tsx:201-204 | after marking, keys are unchanged and unique, at most one record is active, none without a closest record, and the closest one otherwise |
| `TocContext.TOCProvider.constructor` | frontend/templates/troubleshooting/tocContext.tsx:241-243 | the registry starts as the records of the default items, or empty |
| `TocContext.TOCProvider.AddItem` | frontend/templates/troubleshooting/tocContext.tsx:143-165 | a present id fails with `UniqueId <id> already exists in the TOC` and changes nothing; otherwise the new record with the given ref is appended |
| `TocContext.TOCProvider.UpdateItemRef` | frontend/templates/troubleshooting/tocContext.tsx:130-141 | the registry becomes `updateTOCItemRef` of the old one, and keys stay unique |
| `TocContext.TOCProvider.RemoveItem` | frontend/templates/troubleshooting/tocContext.tsx:171-176 | the registry becomes the old one with the id deleted, and keys stay unique |
| `TocContext.TOCProvider.GetItem` | frontend/templates/troubleshooting/tocContext.tsx:178-183 | the record stored under the id, if any |
| `TocContext.TOCProvider.GetItems` | frontend/templates/troubleshooting/tocContext.tsx:167-169 | the records sorted by top with ties in insertion order: sorted, and a permutation of the registry |
| `TocContext.TOCProvider.UpdateClosestItem` | frontend/templates/troubleshooting/tocContext.tsx:198-207 | the loop sets every record's `active` flag to whether it is the closest record, and changes nothing else |
| `TocContext.UpdateClosestItemActivatesClosest` | frontend/templates/troubleshooting/tocContext.tsx:198-207 | after the update exactly the closest record is active, and none when no record is visible |
| `Troubleshooting.FilteredConclusions` | frontend/templates/troubleshooting/index.tsx:71-73 | the kept conclusions are conclusions not headed `Related Pages`, and every such conclusion is kept |
| `Troubleshooting.FilteredConclusionsAppend` | frontend/templates/troubleshooting/index.tsx:71-73 | filtering keeps the relative order: it distributes over concatenation |
| `Troubleshooting.IntroSections` | frontend/templates/troubleshooting/index.tsx:77-86 | without a first section with a body the introduction is unchanged; otherwise the first section keeps its body, a missing heading becomes `Introduction` and a missing id `introduction`, and the rest is unchanged |
| `Troubleshooting.Sections` | frontend/templates/troubleshooting/index.tsx:88-90 | the sections are as many as the introduction, solutions and filtered conclusions together, with the solutions in the middle, unchanged |
| `Troubleshooting.ToToc` | frontend/templates/troubleshooting/index.tsx:93 | one entry per section, holding its heading as title and its id as unique id |
| `Troubleshooting.WithTitle` | frontend/templates/troubleshooting/index.tsx:95 | the kept entries have a title and are entries of the input |
| `Troubleshooting.WithTitleAppend` | frontend/templates/troubleshooting/index.tsx:95 | the title filter distributes over concatenation |
| `Troubleshooting.Headed` | frontend/templates/troubleshooting/index.tsx:92-95 | the kept sections have a heading, and every section with a heading is kept |
| `Troubleshooting.WithTitleOfToToc` | frontend/templates/troubleshooting/index.tsx:92-95 | filtering the entries by title is taking the entries of the headed sections |
| `Troubleshooting.TocItems` | frontend/templates/troubleshooting/index.tsx:92-95 | every entry has a title, and with linked problems the related-problems entry comes last |
| `Troubleshooting.TocItemsShape` | frontend/templates/troubleshooting/index.tsx:88-95 | the table of contents lists the headed sections in page order (introduction, solutions, filtered conclusions), then the Related Problems record exactly when there are linked problems |
| `Troubleshooting.Titles` | frontend/templates/troubleshooting/index.tsx:759 | the titles of the problems, in order |
| `Troubleshooting.TitleIndex` | frontend/templates/troubleshooting/index.tsx:759 | the first position of a problem with the title, or -1 when none has it |
| `Troubleshooting.UniqByTitle` | frontend/templates/troubleshooting/index.tsx:759 | `uniqBy` keeps no more problems than it is given |
| `Troubleshooting.UniqByTitleMembers` | frontend/templates/troubleshooting/index.tsx:759 | every kept problem is a problem of the input |
| `Troubleshooting.UniqByTitleDistinct` | frontend/templates/troubleshooting/index.tsx:759 | the kept problems have pairwise distinct titles |
| `Troubleshooting.UniqByTitleCovers` | frontend/templates/troubleshooting/index.tsx:759 | every title of the input is kept |
| `Troubleshooting.UniqByTitlePrefix` | frontend/templates/troubleshooting/index.tsx:755-759 | the deduplicated linked problems come first in the deduplicated concatenation |
| `Troubleshooting.UniqByTitleFirstInOrder` | frontend/templates/troubleshooting/index.tsx:759 | each kept problem is the first input problem with its title, and the kept problems come in the order their titles first occur |
| `Troubleshooting.RelatedProblems` | frontend/templates/troubleshooting/index.tsx:755-759 | a prefix of the deduplicated linked-then-related problems, exactly as long as the smaller of their number and the larger of 6 and the number of linked problems; titles pairwise distinct, all drawn from the input |
| `Troubleshooting.RelatedProblemsKeepsLinked` | frontend/templates/troubleshooting/index.tsx:755-759 | no linked problem is omitted: every linked problem's title is listed |
| `Troubleshooting.AuthorInformation` | frontend/templates/troubleshooting/index.tsx:482-512 | nothing without authors; otherwise the listing of the first author with the number of the others |
| `Troubleshooting.AuthorListing` | frontend/templates/troubleshooting/index.tsx:554-589 | the listing starts with the primary author, and is just that name exactly when there are no other authors |
| `Troubleshooting.AuthorListingText` | frontend/templates/troubleshooting/index.tsx:554-589 | the primary author alone without other authors, `and 1 contributor` for one, and `and <n> contributors` for more |
| `Troubleshooting.FooterFor` | frontend/templates/troubleshooting/index.tsx:852-859 | for one problem `1 common problem` with `View problem`; for more `<n> common problems` with `View all` |
| `Troubleshooting.DeviceCardFooterAsWritten` | frontend/templates/troubleshooting/index.tsx:841-863 | as written, a footer always renders, and for a positive count it is the one above |
| `Troubleshooting.DeviceCardZeroShowsStrayText` | frontend/templates/troubleshooting/index.tsx:841 | a device without problems renders the stray text `0` |
| `Troubleshooting.DeviceCardFooter` | frontend/templates/troubleshooting/index.tsx:841-863 | corrected: no footer exactly when there are no problems, never stray text, and the singular texts exactly for one problem |
| `Troubleshooting.DeviceCardFootersAgree` | frontend/templates/troubleshooting/index.tsx:841 | the corrected and the as-written footer agree on every positive count |
| `WorkbenchCompatibility.CompatibilityUrl` | frontend/templates/product/hooks/useWorkbenchCompatibility.tsx:51 | the request path ends with the product id |
| `WorkbenchCompatibility.SixDigitNumbersAreValid` | frontend/templates/product/hooks/useWorkbenchCompatibility.tsx:38 | every number from 100000 to 999999, written in decimal, is a valid product id |
| `WorkbenchCompatibility.ValidIdTakesNoSuffix` | frontend/templates/product/hooks/useWorkbenchCompatibility.tsx:38 | a valid id followed by anything more, such as an option suffix, is not valid |
| `WorkbenchCompatibility.FirstCompatible` | frontend/templates/product/hooks/useWorkbenchCompatibility.tsx:91-93 | nothing exactly when no topic is compatible; otherwise a compatible topic with no compatible topic before it |
| `WorkbenchCompatibility.ChooseTopic` | frontend/templates/product/hooks/useWorkbenchCompatibility.tsx:95 | the chosen topic is one of the topics, and the first one when none is compatible |
| `WorkbenchCompatibility.ChooseTopicIsFirstCompatible` | frontend/templates/product/hooks/useWorkbenchCompatibility.tsx:91-95 | the chosen topic is compatible exactly when some topic is, and then it is the first compatible one |
| `WorkbenchCompatibility.Provider.constructor` | frontend/templates/product/hooks/useWorkbenchCompatibility.tsx:35-85 | the data starts as the empty structure and no topic is selected |
| `WorkbenchCompatibility.Provider.OnProductId` | frontend/templates/product/hooks/useWorkbenchCompatibility.tsx:37-56 | an id that is not six digits sends no request and keeps the data; a valid id requests its path, then holds the returned data, or the empty structure when the request fails; the selection is untouched |
| `WorkbenchCompatibility.Provider.OnCompatData` | frontend/templates/product/hooks/useWorkbenchCompatibility.tsx:86-96 | without topics the selection is kept; otherwise it becomes the first compatible topic or, failing that, the first topic; the data is untouched |
| `WorkbenchCompatibility.UseContext` | frontend/templates/product/hooks/useWorkbenchCompatibility.tsx:68-76 | outside the provider it fails with its message; inside it returns the provider's value |

## Left out

- Network and data fetching: the commerce, CMS, legacy-API and search-index requests, the cart mutation requests and the notify-me request are not modelled. Each appears only as the outcome handed to the code that awaited it, because their implementations live in outside services.
- The response cache wrapper around product fetches (`withCache`) is not part of this model. Its implementation is not in the repository's core files.
- Browser effects are recorded, not performed: `window.scrollTo`, `history.pushState`, scroll and resize listeners, `ResizeObserver` and script injection. The scroll target and the pushed hash are returned as a value, and the Piwik queue is a log of commands.
- Console output (`console.warn`, `console.error`, `console.log`) is left out. It carries no decision.
- The zoom geometry of the gallery is left out. It is computed in floating point from DOM measurements.
- Floating point: the gallery's container width and height, which `ResizeObserver` reports as fractional pixels from `contentRect`, are integers. Prices are integer cents, and a rating value is a rational rounded to half stars with halves rounded up, as `Math.round` does. The 10% viewport buffer of `getClosest` is compared after scaling by 10. `NaN` and infinite values are not modelled.
- `parseInt` is modelled on decimal text only: leading whitespace, a sign and the leading digits. Radix prefixes such as `0x` are not modelled.
- `localeCompare` on itemcodes is modelled as code-point lexicographic order. Locale collation is not modelled.
- String lengths are counted in characters, not UTF-16 code units, so a surrogate pair counts as one in `SearchInput`'s 100-character cut.
- `sumMoney` is modelled as a sum of cents; its currency handling is not shown. `computeDiscountPercentage`, Markdown rendering (`snarkdown`, `markdownToHTML`), the Strapi image conversion and URL parsing are parameters, because their code is not part of this model.
- The CSV stream and the media-library upload of the export, with their stream errors, are left out. Only the record shaping, the schema check, the file name and the count are modelled.
- `computeProductListAlgoliaFilterPreset` and `useItemTypeProductList` are parameters of the product-list view. `DEFAULT_STORE_CODE` and the production flag are parameters of the product page.
- JavaScript object aliasing: `updateClosestItem` sets `active` on the record objects that the previous state also holds. The model builds new records and does not capture that the old state is changed as well.
- JavaScript property order: `Object.values` lists integer-like keys first, in ascending order, before the other keys in insertion order. The registry keeps insertion order for every id, so a table of contents whose ids look like integers is not modelled.
- The `{menu && …}` guard of the default layout, which hides the navigation when the layout has no menu, is not modelled: the navigation and the drawer take a menu that is present.
- React refs are data: a ref's later mutation by React (mounting an element) is not modelled, and each registry operation sees the ref as it is when called.
- The `&nbsp;` of the hero title is the character U+00A0. The HTML rendering itself is not modelled.
- Price display strings (`$${price}`, `formatShopifyPrice`) and `getProductVariantSku` are not modelled; the model keeps the cents they format.
- The grid item's fixed rating of 4 and count of 102 are kept as constants. The list item's fixed rating text is not modelled.
- The `@ifixit/menu` menu type and the product-list types are not in the source shown. Their shapes are assumed from the fields the code reads.
- `dropdownTopicVariants`, typed `any[]`, is a sequence of strings.
- A missing string field and the empty string are both written `""` where the code only tests truthiness.
- `search-form.tsx` is not modelled: it deletes `FormData` entries while iterating, behind a debounce, so its outcome depends on iterator and timing semantics.
- The type error raised when `product.tags` is read on a redirect is modelled as a thrown failure carrying V8's message text; other engines word it differently.
- ProductGallery.InnerEnableZoom: the state the effect keeps after `enableZoom` turns false is not modelled. The effect returns early without setting the flag, so a stale `true` can remain; the model gives the value a fresh resize computes.
- The `addEcommerceItem` command is modelled without its category slot. A cart change always leaves that slot `undefined`.
- The layout calls `trackPiwikPreferredLanguage` with a second argument, the user's language id. The function takes one parameter and reads the language from the current URL instead. The model takes that language as a parameter and has no place for the extra argument, which JavaScript ignores.

## Findings

| source | as written | input that shows it | evidently intended | confidence | as-written member | corrected member |
|---|---|---|---|---|---|---|
| frontend/templates/product/server.tsx:31 | the page redirects only when the typename is `ShopifyProductRedirect`, but `findProduct` (frontend/models/product/server.ts:64,72) builds redirects with the typename `ProductRedirect` | any handle with a URL redirect. The redirect object has no `tags`, so reading `product.tags` at line 62 throws instead of redirecting | a permanent redirect to the target before any other check | not executed | `ProductServer.GetServerSidePropsAsWritten`, `ProductServer.RedirectThrowsAsWritten` | `ProductServer.GetServerSideProps`, `ProductServer.RedirectsFirst` |
| frontend/templates/troubleshooting/index.tsx:841 | `{countOfAssociatedProblems && (...)}` evaluates to the number `0` for a count of 0, and React renders it as the text `0` | a device with no associated problems | no footer at all | not executed | `Troubleshooting.DeviceCardFooterAsWritten`, `Troubleshooting.DeviceCardZeroShowsStrayText` | `Troubleshooting.DeviceCardFooter`, `Troubleshooting.DeviceCardFootersAgree` |
| frontend/templates/troubleshooting/tocContext.tsx:61 | `scrollToOptions?.addIdToUrl \|\| true` is always true, so passing `addIdToUrl: false` still pushes the hash | an element with id `step-1` scrolled to with `{ addIdToUrl: false }` | the option defaults to true and an explicit `false` keeps the URL (`?? true`) | not executed | `TocContext.ScrollToAsWritten`, `TocContext.AddIdToUrlFalseIgnored` | `TocContext.ScrollTo`, `TocContext.ScrollToAgrees` |
| frontend/app/collection/components/sections/hero-section/index.tsx:55 | `{brandLogo && brandLogo.width && (...)}` evaluates to the number `0` for a logo of width 0, and React renders it as the text `0` | a brand logo with width 0 | no logo and no text | not executed | `HeroSection.BrandLogoSlotAsWritten`, `HeroSection.ZeroWidthLogoShowsStrayText` | `HeroSection.BrandLogoOf`, `HeroSection.BrandLogoSlotsAgree` |
