# Catalog item page and byte formatter of the self-service portal

This project models, in Dafny, two pieces of sequential logic from the
portal's client application and proves properties about them.

- **`formatBytes` / `megaBytes`** (`client/app/shared/format-bytes.filter.js`).
  `formatBytes` writes a byte count as `"<number> <unit>"`, and
  `megaBytes` converts mebibytes to bytes. In `formatBytes` the unit is the
  integer base-1024 logarithm of the count, picked from
  `Bytes, kB, MB, GB, TB, PB`. The number is the count divided by 1024^k,
  rounded to tenths by `Number.prototype.toFixed(1)`: nearest, with ties
  going to the larger value (section 21.1.3.3 of ECMA-262, 2022 edition).
  A trailing `.0` is then dropped. `0` is written `0 Bytes`, and values
  that are not numbers or not finite are written `-`. Counts are natural
  numbers. The division by a power of two is exact, so the model uses
  exact rationals in place of doubles. `ToFixed1` follows the toFixed
  steps: the digits of the rounded tenths, padded to two digits, with a
  point before the last one. `StripZeroFraction` follows the filter's
  `/\.0*$/` match and its `substr(0, indexOf('.'))`.
- **The catalog item detail states** (`client/app/states/catalogs/details/details.state.js`).
  - The three route resolvers return the collections-API call they would
    issue.
  - The controller is an immutable record `DetailsVm`. Its fields are
    the parsed dialogs, `addToCartEnabled`, `dialogData`, `addingToCart`,
    `dialogUrl` and the notifications emitted so far. Each controller
    function is a pure transition on that record.
  - The shopping cart's `allowed()` answer and the result of
    `ShoppingCart.add` are parameters. `isDuplicate` and
    `setFieldValueDefaults` are function parameters.
  - `addToCart` is split at its promise. `StartAddToCart` covers the
    guard, the payload and `addingToCart = true`. `FinishAddToCart`
    covers the notifications and `addingToCart = false`. `AddToCart`
    runs both.
  - `lodash.merge(vm.dialogData, …)` writes into `vm.dialogData` itself.
    So after `dataForSubmit` the controller's dialog data include the
    `service_template_href` key, and the model keeps it there.

Files: `wrappers.dfy` (Option, Result), `text.dfy` (JavaScript `indexOf`,
`substr`, `split`, `join` and integer numerals), `format_bytes.dfy`,
`catalog_routes.dfy` (route resolvers), `details_controller.dfy`.

## Model

| member | source | states |
|---|---|---|
| `FormatBytes.Format` | client/app/shared/format-bytes.filter.js:2-8 | exactly `0` is written `0 Bytes`; a value that is not a number or not finite is written `-` |
| `FormatBytes.UnitIndex` | client/app/shared/format-bytes.filter.js:10 | the unit index k of a count n >= 1 satisfies 1024^k <= n < 1024^(k+1) |
| `FormatBytes.UnitIndexUnique` | client/app/shared/format-bytes.filter.js:10 | any j with 1024^j <= n < 1024^(j+1) is the unit index, so the index is the integer base-1024 logarithm |
| `FormatBytes.UnitIndexMonotone` | client/app/shared/format-bytes.filter.js:9-10 | a <= b implies unit(a) <= unit(b), so labels follow the order Bytes, kB, MB, GB, TB, PB |
| `FormatBytes.UnitIndexInRange` | client/app/shared/format-bytes.filter.js:9-10 | below 1024^6 the index is at most 5 and the label is an entry of the unit list |
| `FormatBytes.RoundTenthsNearest` | client/app/shared/format-bytes.filter.js:11 | the rounded tenths are the integer nearest to 10·n/1024^k, and the larger one on a tie (the toFixed rule) |
| `FormatBytes.ToFixed1Parts` | client/app/shared/format-bytes.filter.js:11 | `toFixed(1)` writes the whole part of the tenths, a point, and exactly one tenths digit, including below 1 (leading `0`) |
| `FormatBytes.StripFixed` | client/app/shared/format-bytes.filter.js:13 | the regex-and-substr clean-up turns `<whole>.<digit>` into the whole part when the digit is 0 and leaves it unchanged otherwise |
| `FormatBytes.DisplayShape` | client/app/shared/format-bytes.filter.js:13 | the written number has a point iff its tenths digit is non-zero, then exactly one digit after it, has no space, and reads back as the rounded tenths |
| `FormatBytes.DisplayRange` | client/app/shared/format-bytes.filter.js:10-11 | the shown number is between 1 and 1024 inclusive for every count >= 1 |
| `FormatBytes.FormatCount` | client/app/shared/format-bytes.filter.js:9-13 | for 1 <= n < 1024^6 the output is the rounded, stripped number, one space, then `Units[k]` |
| `FormatBytes.FormatReadBack` | client/app/shared/format-bytes.filter.js:13 | splitting the output at spaces gives exactly two parts: one that reads back as the rounded tenths, and the unit label |
| `FormatBytes.FormatSmall` | client/app/shared/format-bytes.filter.js:9-13 | for 1 <= n < 1024 the output is exactly the decimal count followed by ` Bytes` |
| `FormatBytes.FormatJustBelowMegabyte` | client/app/shared/format-bytes.filter.js:10-13 | 1048575 bytes are written `1024 kB`: rounding can reach 1024 but does not change the unit |
| `FormatBytes.MegaBytes` | client/app/shared/format-bytes.filter.js:17-21 | for a whole number b of mebibytes, `megaBytes(b)` is a whole multiple of 1048576 whose quotient by 1048576 is b |
| `FormatBytes.FormatMegaBytes` | client/app/shared/format-bytes.filter.js:17-21 | formatting `megaBytes(m)` for 1 <= m < 1024 gives the decimal m followed by ` MB` |
| `Text.NatToString` | client/app/shared/format-bytes.filter.js:11 | the numeral of an integer is non-empty decimal digits, has no leading zero except for `0` itself, and is one digit long iff the value is below 10 |
| `Text.NatToStringRoundTrip` | client/app/shared/format-bytes.filter.js:11 | reading the numeral of n back as digits gives n |
| `Text.IndexOf` | client/app/shared/format-bytes.filter.js:13 | `indexOf` gives -1 iff the character is absent, else the first position holding it |
| `Text.Prefix` | client/app/shared/format-bytes.filter.js:13 | `substr(0, len)` is a prefix of the string, of length len when len is in range |
| `Text.Split` | client/app/states/catalogs/details/details.state.js:184 | `split(',')` gives at least one part and no part contains a comma |
| `Text.SplitCount` | client/app/states/catalogs/details/details.state.js:184-187 | the number of parts is the number of commas plus one |
| `Text.SplitJoin` | client/app/states/catalogs/details/details.state.js:184 | joining the parts with commas gives back the message |
| `CatalogRoutes.TemplateId` | client/app/states/catalogs/details/details.state.js:44-48 | the template id is the route's `serviceTemplateId` when truthy, else the request's `source_id`, else undefined |
| `CatalogRoutes.ResolveServiceRequest` | client/app/states/catalogs/details/details.state.js:53-58 | the result is `false` iff no `serviceRequestId` is present; otherwise it is a get of `requests` with that id and empty options |
| `CatalogRoutes.ResolveServiceTemplate` | client/app/states/catalogs/details/details.state.js:44-51 | the template is fetched from `service_templates`, with the picture attributes, under the id `TemplateId` chooses (route id when truthy, else the request's `source_id`) |
| `CatalogRoutes.ResolveDialogs` | client/app/states/catalogs/details/details.state.js:67-74 | dialogs are queried at `service_templates/<id>/service_dialogs` for the id `TemplateId` chooses, with their resources expanded and their content attribute |
| `CatalogRoutes.ResolversAgree` | client/app/states/catalogs/details/details.state.js:69-73 | the id read back from the path `service_templates/<id>/service_dialogs` is the id the template is fetched with |
| `CatalogRoutes.DetailsRouteUsesRouteTemplate` | client/app/states/catalogs/details/details.state.js:44-58 | on the details route no request is fetched and the route's template id is used in both resolvers |
| `CatalogRoutes.DuplicateRouteUsesSourceTemplate` | client/app/states/catalogs/details/details.state.js:44-58 | on the duplicate route the request is fetched by its id and its `source_id` names the template |
| `DetailsController.ParseDialogs` | client/app/states/catalogs/details/details.state.js:81-92 | parsed dialogs are empty when `subcount <= 0`; with no resource it throws; with no request they are the first resource's content; with a request they have the same length and order, each dialog passed through the defaults helper with `options.dialog` |
| `DetailsController.NewController` | client/app/states/catalogs/details/details.state.js:77-103 | the controller starts with add-to-cart not enabled, empty dialog data, `addingToCart` undefined, no notifications and `dialogUrl = service_catalogs/<catalog id>/service_templates`; it fails exactly when the dialogs cannot be parsed; its parsed dialogs follow all three cases, including the duplicate case with each dialog passed, in order, through the defaults helper with `options.dialog` |
| `DetailsController.SetDialogData` | client/app/states/catalogs/details/details.state.js:119-122 | only `addToCartEnabled` (set to the reported validity) and `dialogData` (set to the reported data) change |
| `DetailsController.DisabledFollowsLastReport` | client/app/states/catalogs/details/details.state.js:119-130 | after any sequence of dialog reports, add-to-cart is disabled iff the cart is not allowed or the last report was invalid, and the dialog data are the last report's |
| `DetailsController.StartsDisabled` | client/app/states/catalogs/details/details.state.js:94-130 | starting from not-enabled, add-to-cart stays disabled until some report is valid, whatever the cart answers |
| `DetailsController.DataForSubmit` | client/app/states/catalogs/details/details.state.js:138-143 | the payload sets `href` to `/api/service_templates/<id>`, keeps every other key and value, and becomes the controller's dialog data |
| `DetailsController.DataForSubmitIdempotent` | client/app/states/catalogs/details/details.state.js:138-143 | preparing the payload a second time changes neither the payload nor the controller |
| `DetailsController.AlreadyInCart` | client/app/states/catalogs/details/details.state.js:149-151 | the duplicate question is asked about the prepared payload, which carries `service_template_href` and is kept in the controller |
| `DetailsController.AlreadyInCartMatchesAdd` | client/app/states/catalogs/details/details.state.js:149-162 | the duplicate check asks about exactly the payload a following add submits, and running it first does not change that add |
| `DetailsController.StartAddToCart` | client/app/states/catalogs/details/details.state.js:157-169 | with the cart not allowed nothing changes and nothing is added; otherwise the controller differs only in its dialog data (the prepared payload, with every entered value kept) and `addingToCart = true`, and the item is the template name with that payload |
| `DetailsController.AddSuccess` | client/app/states/catalogs/details/details.state.js:175-181 | exactly one success notification is appended after the earlier ones: the duplicate wording iff the result is a duplicate, otherwise `Item added to shopping cart`; nothing else changes |
| `DetailsController.AddFailure` | client/app/states/catalogs/details/details.state.js:183-188 | one error notification per comma-separated part of the message, in order, each with the error prefix, after the earlier ones |
| `DetailsController.FinishAddToCart` | client/app/states/catalogs/details/details.state.js:170-188 | after either outcome `addingToCart` is false and nothing else but the notifications changes; success appends one note with the duplicate wording iff duplicate; failure appends commas + 1 error notes, the i-th being the error prefix followed by the i-th comma-separated part |
| `DetailsController.AddToCart` | client/app/states/catalogs/details/details.state.js:157-189 | not allowed: no item is added and the controller is unchanged; allowed: the item carries the prepared payload, afterwards the controller differs only in dialog data (the payload), `addingToCart = false` and the appended outcome notes (exact lists as for the finish), and whether add-to-cart is disabled is the same as before |

## Left out

- The session and role-based-access service (`loadUser`, `currentUser`, `switchGroup`, `setPause`, `requestWsToken`, the navigation gate table) is not part of this model. Of that service only its test file is present, so its rule table and its storage, cookie and reload side effects cannot be read from the code.
- Floating point in `formatBytes` is not modelled. `Math.log(n) / Math.log(1024)` can land just below an integer at exact powers of 1024. Counts above 2^53 are not exact doubles. The model uses the exact integer logarithm and exact rational division.
- FormatBytes.FormatCount: proved only for 1 <= n < 1024^6. For larger counts `Format` writes the label `undefined`, as the code does, but no lemma is stated there.
- FormatBytes.MegaBytes: the argument is modelled as a whole number of mebibytes only; fractional JavaScript numbers (`megaBytes(1.5)` is 1572864) and numeric strings coerced by `*` are not modelled.
- FormatBytes.Format: inputs are modelled only as a natural number of bytes, "not a number" or "not finite". Negative numbers, fractions in (0, 1) and numeric strings such as `'0'`, which skip the strict `=== 0` test, are not modelled.
- `refreshField` is not modelled. It only forwards the dialog data, the field name, `dialogUrl` and the template id to `DialogFieldRefresh.refreshDialogField`, which is outside the model.
- The collections-API requests, `ShoppingCart.add`/`allowed`/`isDuplicate`, `DialogFieldRefresh.setFieldValueDefaults` and `EventNotifications` are outside the model. They become parameters or outcomes.
- The `__()` translation is taken to be the identity.
- `lodash.merge` is modelled as a one-key map overwrite. Dialog values are modelled as strings, so its deep merge of nested values does not arise.
- The `resolveDialogs` option `attributes: 'content'` is a string in the code. The model writes it as the one-element list `["content"]`.
- A failure callback that throws before `addingToCart` is reset is not modelled. An example is a rejection value that is not a string.
- Route and state registration (`CatalogsDetailsState`, `getStates`) and the templates are not modelled.
