# Portfolio client stores and development proxy, in Dafny

This project models the data-handling core of a Vue/Pinia portfolio client. It covers five pieces:

- **Showcase store.** It loads the showcase list, fetches one item by slug and creates an item. Each raw record from the backend is normalised into a `ShowcaseItem`. A site or gallery type is worked out, and legacy single images are adopted into the image list.
- **Demos store.** The same three actions for demos. A demo has no type and no images.
- **Users store.** It loads the admin's user list and normalises each user. This includes the admin flag under its three spellings.
- **Cloudflare store.** It recognises a GraphQL-shaped analytics body and flattens the first zone's adaptive groups into points and totals. It also models the getters that read totals and the chart series, and the state `fetchDashboard` leaves.
- **Development proxy.** `rewriteCookiesForProxy` rewrites every `Set-Cookie` header so the browser keeps the cookie on a plain-HTTP origin:
  - `Domain` and `Secure` are removed;
  - `SameSite=None` becomes `SameSite=Lax`;
  - a trailing `;` is dropped.

Modules:

- `Text`: JavaScript white space, `trim`, ASCII lower case, decimal rendering of integers.
- `Wrappers`, `Js`: JSON values and the JavaScript operators the normalisers use:
  - `?.` is `Get`, `??` is `Or` and `Coalesce`, `'k' in v` is `HasField`;
  - truthiness is `Truthy`, `String(v)` is `ToJsString` and `Number(v) || 0` is `NumberOrZero` for the values they do not throw on (see `Js.ToJsString` under Left out);
  - the filter that keeps records is `ObjectElements`.
- `Http`: the part every action shares once `fetch` has answered:
  - the byte-order mark is stripped and the body trimmed;
  - an empty body is null, and the body is parsed;
  - the error text is chosen for a collection load (`LoadCollection`), a lookup by slug (`LoadRecord`) and a create (`CreateFailure`).
- `Slug`: `slugFromTitle` and the slug a create request sends.
- `Showcase`, `Demos`, `Users`, `Cloudflare`: normalisers, envelope handling and the store classes. Each action is a method that updates the store's fields, proved equal to the pure function above.
- `ProxyCookies`: the four regular-expression replacements, modelled as what they match. The theorem reads a well-formed cookie attribute by attribute, and `ProxyResponse.RewriteCookiesForProxy` updates the headers in place.

The network, timers and `JSON.parse` are parameters:

- an `Http.Outcome` is either the response (status, status text, body text) or the error `fetch` threw;
- a `Parser` is a function returning `None` for a body that `JSON.parse` rejects;
- a Cloudflare `AxiosOutcome` is either the parsed body or the rejection.

A store method describes the action once those have settled.

The code and its design description disagree on one point, and the model follows the code. The description says every failed load captures an error string. In the code, a non-OK response whose body is `{ "message": null }` works differently:

- it skips the `error` member and the status text;
- a collection load then keeps `Failed to load <what> (<status>)`;
- a lookup by slug keeps no error at all.

`Http.LoadFailureMessage` and `Http.LookupFailureMessage` state this.

## Model

| member | source | states |
|---|---|---|
| Text.TrimPadded | src/stores/showcaseStore.ts:129 | white space before and after a text makes no difference to its `trim()` |
| Text.TrimIdempotent | src/stores/showcaseStore.ts:129 | trimming twice is trimming once |
| Js.Coalesce | src/stores/showcaseStore.ts:57 | a `??` chain is null exactly when every member is; otherwise it is the first member that is not null |
| Js.ObjectElementsMembers | src/stores/showcaseStore.ts:62-64 | the record filter keeps exactly the arrays and objects of the input |
| Js.ObjectElementsAppend | src/stores/showcaseStore.ts:62-64 | the record filter keeps order: it distributes over concatenation |
| Js.EnvelopeUnwrapped | src/stores/showcaseStore.ts:53-65 | an array wrapped under any supported envelope key yields the same records as the bare array |
| Js.StringListOfStrArray | src/stores/showcaseStore.ts:48 | `map(String)` over a string array returns the original list |
| Js.NumberOfIntString | src/stores/cloudflareStore.ts:94 | `Number(String(n)) \|\| 0` is `n` for every integer, negative ones included |
| Http.CleanBodyIsTrim | src/stores/showcaseStore.ts:127-129 | stripping the byte-order mark before `trim()` never changes the cleaned body |
| Http.BlankBodyIsNull | src/stores/showcaseStore.ts:130-131 | an empty or all-white-space body is a null answer, and the parser is not consulted |
| Http.PaddedBodyReceivedAlike | src/stores/showcaseStore.ts:127-139 | a byte-order mark and white space around the body make no difference to the reply |
| Http.LoadFailureMessage | src/stores/showcaseStore.ts:140-146 | a non-OK load keeps the body's `message`, else its `error`, else the status text; a null `message`, or a null `error` when there is no `message`, gives `Failed to load <what> (<status>)` |
| Http.LoadCollection | src/stores/showcaseStore.ts:122-157 | for a body whose normalisation does not throw, no error exactly when the response is OK and parsed; an error always empties the list; the abort message applies only to the users load; a null OK body is an empty array |
| Http.LookupFailureMessage | src/stores/showcaseStore.ts:177-186 | a non-OK lookup without `message` gets the 403 or 404 text, or `<failed text> (<status>)`; with a string `message` the error is that string, and it is null exactly when the message is null |
| Http.LoadRecord | src/stores/showcaseStore.ts:159-196 | for a body whose normalisation does not throw, a record is kept exactly when the response is OK and the body is an object or array, and it is the normalised body; an error never comes with a record |
| Http.CreateFailure | src/stores/showcaseStore.ts:215-248 | a create fails unless the response is OK; an abort gives the timeout text; a network error without a message gives the network hint; an unparsable body gives `Invalid JSON from server` |
| Slug.SlugFromTitle | src/stores/showcaseStore.ts:67-75 | the result is a slug: non-empty, only `a-z`, `0-9` and `-`, no leading, trailing or doubled dash |
| Slug.CollapseDashesShape | src/stores/showcaseStore.ts:73 | collapsing dash runs leaves no doubled dash and only slug characters |
| Slug.StripEdgeDashesShape | src/stores/showcaseStore.ts:74 | removing the edge dashes keeps the letters and digits, and is empty exactly when there are none |
| Slug.SlugIsFixedPoint | src/stores/showcaseStore.ts:67-75 | a slug is its own slug |
| Slug.SlugIdempotent | src/stores/demosStore.ts:42-50 | slugging a slug changes nothing, for both fallback words |
| Slug.SlugKeepsLettersAndDigits | src/stores/showcaseStore.ts:67-75 | the slug holds exactly the title's lower-cased letters and digits in order; only a title without any gets the fallback word |
| Slug.RequestSlugShape | src/stores/showcaseStore.ts:206 | a non-blank supplied slug is used trimmed; otherwise the title's slug is used; either way the result is trimmed and not blank |
| Slug.SentRequestSlug | src/stores/showcaseStore.ts:206-210 | the slug a create request chooses is always sent, exactly as chosen |
| Showcase.NormalizedItemWellFormed | src/stores/showcaseStore.ts:27-51 | a normalised item has no empty image URL, and an item without images has no usable legacy image |
| Showcase.ItemDefaults | src/stores/showcaseStore.ts:40-50 | a record without any known member normalises to the empty site item |
| Showcase.KindPrecedence | src/stores/showcaseStore.ts:29-30 | an item is a gallery exactly when `type`, or `Type` when `type` is absent, is `gallery` or `photo` |
| Showcase.ListedImagesWin | src/stores/showcaseStore.ts:31-35 | a listed image array with a non-empty URL gives the non-empty URLs in order |
| Showcase.LegacyImageAdopted | src/stores/showcaseStore.ts:36-39 | with no usable listed images, a non-blank legacy image becomes the one-element list and stays as `imageUrl` |
| Showcase.NormalizeEncodeItem | src/stores/showcaseStore.ts:27-51 | a well-formed item written in either member spelling normalises back to itself |
| Showcase.ToItemArray | src/stores/showcaseStore.ts:53-65 | one item per record of the response |
| Showcase.LoadedItemsWellFormed | src/stores/showcaseStore.ts:53-65 | every loaded item is well formed: no empty image URL, and no usable legacy image left out of the list |
| Showcase.ItemsKeepOrder | src/stores/showcaseStore.ts:62-64 | loading concatenated arrays gives the concatenated item lists |
| Showcase.ItemsOfEnvelope | src/stores/showcaseStore.ts:55-58 | `items`, `showcase`, `data` and `demos` envelopes are read like the bare array |
| Showcase.FirstEnvelopeKeyDecides | src/stores/showcaseStore.ts:57-60 | a present `items` member that is not an array hides the later keys: no items |
| Showcase.ScalarHoldsNoItems | src/stores/showcaseStore.ts:54-60 | a body that is neither array nor object holds no items |
| Showcase.CreateBodyHasSlug | src/stores/showcaseStore.ts:206-212 | the create body always carries the chosen slug |
| Showcase.ItemBodyReadsBack | src/stores/showcaseStore.ts:207-214 | a create body normalises to the item it asks for: type, title, slug, users, and content for a site or non-empty images for a gallery |
| Showcase.CreateBodyReadsBack | src/stores/showcaseStore.ts:206-214 | the body `createItem` sends reads back with the trimmed title and the chosen slug |
| Showcase.ShowcaseStore.LoadItems | src/stores/showcaseStore.ts:122-157 | the new list and error are the collection load of the reply, and loading is off |
| Showcase.ShowcaseStore.GetItemBySlug | src/stores/showcaseStore.ts:159-196 | the current item and its error are the lookup of the reply, and loading is off |
| Showcase.ShowcaseStore.CreateItem | src/stores/showcaseStore.ts:198-250 | the request body, and the failure the reply gives; a failure leaves the store unchanged, a success reloads the list |
| Demos.RepeatedUsersKeyIsInert | src/stores/demosStore.ts:17 | the repeated `userIds` key in the coalescing chain changes nothing |
| Demos.HtmlPrecedence | src/stores/demosStore.ts:22 | content is `htmlContent`, else `html_content`, else `HtmlContent`, else empty |
| Demos.DemoDefaults | src/stores/demosStore.ts:16-26 | a record without any known member normalises to the empty demo |
| Demos.NormalizeEncodeDemo | src/stores/demosStore.ts:16-26 | every demo written in either member spelling normalises back to itself |
| Demos.ToDemoArray | src/stores/demosStore.ts:28-40 | one demo per record of the response |
| Demos.DemosKeepOrder | src/stores/demosStore.ts:37-39 | loading concatenated arrays gives the concatenated demo lists |
| Demos.EncodedDemosReadBack | src/stores/demosStore.ts:28-40 | an array of written demos loads back as those demos, in order |
| Demos.DemosOfEnvelope | src/stores/demosStore.ts:30-33 | `demos`, `data` and `items` envelopes are read like the bare array |
| Demos.DemosMemberDecides | src/stores/demosStore.ts:32-35 | a present `demos` member that is not an array hides the later `data` and `items` keys: no demos |
| Demos.ScalarHoldsNoDemos | src/stores/demosStore.ts:29-35 | a body that is neither array nor object holds no demos |
| Demos.CreateDemoBodyHasSlug | src/stores/demosStore.ts:140-146 | the create body always carries the chosen slug |
| Demos.CreateDemoBodyReadsBack | src/stores/demosStore.ts:140-146 | the body `createDemo` sends normalises to the demo with the trimmed title, chosen slug, content and users |
| Demos.DemosStore.LoadDemos | src/stores/demosStore.ts:63-98 | the new list and error are the collection load of the reply, and loading is off |
| Demos.DemosStore.GetDemoBySlug | src/stores/demosStore.ts:100-137 | the current demo and its error are the lookup of the reply, and loading is off |
| Demos.DemosStore.CreateDemo | src/stores/demosStore.ts:139-182 | the request body, and the failure the reply gives; a failure leaves the store unchanged, a success reloads the list |
| Users.AdminIsTruthiness | src/stores/usersStore.ts:26 | the admin flag is the truthiness of `isAdmin`, else `is_admin`, else `IsAdmin` |
| Users.OptionalMembersPrecedence | src/stores/usersStore.ts:25-28 | the camelCase spelling of an optional member wins over the alternate one |
| Users.UserDefaults | src/stores/usersStore.ts:21-30 | a record without any known member normalises to the empty non-admin user |
| Users.NormalizeEncodeUser | src/stores/usersStore.ts:21-30 | every user written in either member spelling normalises back to itself |
| Users.ToUserArray | src/stores/usersStore.ts:32-48 | one user per record of the response |
| Users.UsersKeepOrder | src/stores/usersStore.ts:33-37 | loading concatenated arrays gives the concatenated user lists |
| Users.EncodedUsersReadBack | src/stores/usersStore.ts:32-48 | an array of written users loads back as those users, in order |
| Users.UsersOfEnvelope | src/stores/usersStore.ts:38-45 | `users`, `data`, `items` and `result` envelopes are read like the bare array |
| Users.ScalarHoldsNoUsers | src/stores/usersStore.ts:38-47 | a body that is neither array nor object holds no users |
| Users.UsersStore.LoadAllUsers | src/stores/usersStore.ts:58-102 | the new list and error are the collection load of the reply, where an abort reads `Request timed out`, and loading is off |
| Cloudflare.GraphQLBodyIsObject | src/stores/cloudflareStore.ts:50-53 | a GraphQL-shaped body is a truthy object |
| Cloudflare.FirstZoneOnly | src/stores/cloudflareStore.ts:56-57 | zones after the first make no difference to the normalised dashboard |
| Cloudflare.NoGroupsNoTraffic | src/stores/cloudflareStore.ts:56-88 | without groups the timeseries is empty and every total is 0 |
| Cloudflare.PointsFollowGroups | src/stores/cloudflareStore.ts:58-69 | one point per group, in order, dated by the group's hour; each measure is the group member it is taken from |
| Cloudflare.PageviewsMirrorRequests | src/stores/cloudflareStore.ts:63-85 | whenever the groups can be mapped, whatever they hold, page views equal requests and threats are 0, in every point and in the totals |
| Cloudflare.TotalsAreSums | src/stores/cloudflareStore.ts:70-87 | each total is the sum of that measure over the timeseries points |
| Cloudflare.MetricTotalCases | src/stores/cloudflareStore.ts:90-128 | a missing measure or one without `all` counts 0; a numeric `all` counts as itself; `all` written as a decimal string counts its value |
| Cloudflare.ChartAddsUpToTotals | src/stores/cloudflareStore.ts:90-166 | for a normalised response, the chart entries' requests add up to the requests total and their bandwidth to the bandwidth total |
| Cloudflare.ChartFollowsTimeseries | src/stores/cloudflareStore.ts:159-166 | one chart entry per point, in order, dated `until`, else `since`, else empty, with the point's requests and bandwidth |
| Cloudflare.DashboardErrorPrecedence | src/stores/cloudflareStore.ts:186-191 | the kept error is a string body, else the body's `message`, else the error's message, else the fixed text |
| Cloudflare.StoredDashboardIdempotent | src/stores/cloudflareStore.ts:181-185 | a stored dashboard is no longer GraphQL-shaped, so storing it again changes nothing |
| Cloudflare.CloudflareStore.FetchDashboard | src/stores/cloudflareStore.ts:170-195 | a received body is stored normalised with no error; a rejection or a throwing normalisation keeps the old data and sets the error; loading is off |
| ProxyCookies.MatchAt | vite.config.ts:10-12 | a match of `;\s*<literal>` is non-empty and lies within the text |
| ProxyCookies.ReplacePieces | vite.config.ts:10-12 | a global replace over `name=value` followed by `;`-led segments works segment by segment |
| ProxyCookies.StripCleanEnd | vite.config.ts:13 | a text ending in neither `;` nor white space is left alone by the trailing-`;` removal |
| ProxyCookies.StripOneSemicolon | vite.config.ts:13 | exactly one final `;` and the white space after it are removed |
| ProxyCookies.DomainPass | vite.config.ts:10 | the `Domain` pass removes exactly the domain attributes, in any ASCII case and with any white space after the `;` |
| ProxyCookies.SecurePass | vite.config.ts:11 | the `Secure` pass removes exactly the `Secure` attributes, in any ASCII case and with any white space after the `;` |
| ProxyCookies.SameSitePass | vite.config.ts:12 | the `SameSite=None` pass turns exactly that attribute, in any ASCII case and with any white space after the `;`, into `; SameSite=Lax` |
| ProxyCookies.RewriteCookieByAttribute | vite.config.ts:9-13 | a well-formed cookie loses `Domain` and `Secure`, gets `SameSite=Lax` for `SameSite=None` (each in any ASCII case, after any white space), keeps every other attribute in place, and loses its trailing `;` |
| ProxyCookies.RewriteCookieSurvivors | vite.config.ts:9-13 | the rewrite of a well-formed cookie is the cookie with its surviving attributes, and rewriting it again changes nothing |
| ProxyCookies.SecurePassCanLeaveSecure | vite.config.ts:11 | removing `; Sec` and the `; Secure` inside `; Secureure` leaves a new `; Secure`, which the pattern would match |
| ProxyCookies.RewriteHeaders | vite.config.ts:5-15 | only `set-cookie` changes; an absent or empty header is left alone; otherwise the header becomes an array with each cookie rewritten, in order |
| ProxyCookies.RewrittenProper | vite.config.ts:9-13 | the rewrite of a proper cookie is proper, and rewriting it again changes nothing |
| ProxyCookies.RewriteProperHeaders | vite.config.ts:5-15 | a header of proper cookies becomes the array of rewritten cookies, and a second rewrite changes nothing |
| ProxyCookies.ProxyResponse.RewriteCookiesForProxy | vite.config.ts:5-15 | the response's headers become `RewriteHeaders` of the old ones |

## Left out

- Network and timers. `fetch`, `axios`, the 15-second abort timers and `clearTimeout` are not modelled. Their results are parameters: `Outcome`, `AxiosOutcome`, or a `JsError` named `AbortError`.
- URLs and configuration. Request URLs, base URLs, `encodeURIComponent` and the slug argument of the lookups are not modelled; the reply is taken as given.
- Request options. Credentials, headers and dashboard query parameters are not modelled.
- `JSON.parse`. It is a `Parser` parameter, so the model does not fix which texts are valid JSON.
- `JSON.stringify`. The create body is modelled as the JSON value sent, not as its text.
- Concurrency. Overlapping actions and the moment a `loading` flag is observed in the middle of an action are not modelled. Each method states the state once the action has settled.
- Lower case. `toLowerCase` is modelled for ASCII letters only; other characters are left as they are.
- Js.ToJsString: `String()` and `Number()` are modelled as never throwing, and integers are written with every digit. In the source, an object parsed from JSON with its own `toString` member has no callable `toString`, so `String()` and `Number()` throw a TypeError on it, also when it sits inside an array. Integers of magnitude 10^21 or more are written in exponent form (`1e+21`). `Http.LoadCollection` and `Http.LoadRecord` are therefore stated only for bodies whose normalisation does not throw. For the OK body `[{"id":{"toString":0}}]` the source's load keeps the TypeError's message and no items, and its lookup keeps the error and no record. The model keeps one item, or the record, with the id `[object Object]`. The `Number(all) || 0` of the Cloudflare getters throws the same way.
- Error values that are not strings. When `message` or `error` holds a non-string value, the source stores that raw value. The model stores its `String()` rendering, `Js.ToJsString`.
- Non-decimal numbers. `Number()` of a string that is not a signed decimal integer counts as 0, so hexadecimal, fractional and exponent forms are not modelled. Fractional numbers are not modelled at all; `Num` holds integers.
- Cloudflare sums over text. `Cloudflare.TotalsAreSums` and `Cloudflare.PointsFollowGroups` cover only groups whose `count`, `edgeResponseBytes` and `visits` are numbers, booleans or absent. A string, array or object member turns the source's `reduce` into string concatenation, and the `Totals` function itself differs from the source there: `Addend` counts such a member 0. For example, a single group with the string count `"5"` gives the source a requests total of `"05"`, which the getter reads back as 5, while the model gives 0.
- Cloudflare.CloudflareStore.FetchDashboard: the message of the TypeError that normalisation throws on null or non-array groups is the parameter `typeErrorMessage`. A getter that would throw the same way (`Cloudflare.ChartData`) is `None`.
- Cloudflare getters. `timeseries`, `totals` and the five `total*` getters are the functions `Timeseries`, `TotalsOf` and `MetricTotal`; their facts are in the lemmas above.
- ProxyCookies.RewriteCookieByAttribute: it covers only well-formed cookies (`WellFormed`, `Proper`). `Domain=`, `Secure` and `SameSite=None` are covered in any ASCII case and after any white space following the `;`. Nothing may follow `Secure` or `SameSite=None` before the next `;`, and a domain value is non-empty. Every other attribute has no `;`, ends in a non-space character, and is text the three patterns do not read. There is at most one trailing `;`. Other headers are rewritten by the same `RewriteCookie` function, but the attribute-level result is not stated for them.
- ProxyCookies.RewriteCookieSurvivors: the rewrite is not idempotent in general. The `Secure` pattern has no word boundary, so `SecurePassCanLeaveSecure` exhibits a cookie from which the pass leaves a new `; Secure`. Idempotence is stated for well-formed cookies only.
- ProxyCookies.RewriteHeaders: header names are taken as already lower-cased, as Node delivers them. Only the `string | string[]` values of `set-cookie` are modelled.
- Http.CreateFailure: in `createItem` and `createDemo`, `await res.text()` runs outside the `try`, so an error thrown while reading the body escapes the action as it is, without the network hint. The model treats every thrown error alike, as a `Thrown` outcome handled by the `catch`.
- Other actions. `uploadShowcaseImage`, `uploadImage`, `deleteItem`, `deleteDemo` and `updateUser` are not part of this model. They are request-and-reload actions with no normalisation of their own.
- Other files. The authentication store, the tickets store, the router, the composables and the rest of the Vite configuration are not part of this model.
