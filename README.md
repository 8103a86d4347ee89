# MindustryToolNext front-end core, modelled in Dafny

MindustryToolNext is the web front-end of a community site for the game
Mindustry. It hosts maps, schematics, posts, translations and game servers.
This project models the parts of it that decide things rather than draw them:

- **Locale middleware** (`Middleware`, middleware.ts). It picks the locale a
  request asks for, from the `Locale` cookie or the `Accept-Language` header.
  It then passes the request through or redirects it under a locale prefix.
- **Client translation** (`I18nClient`, i18n/client.ts). `t(key, args)` splits
  the key into group and name. It looks the name up in a per-locale cache of
  groups, which it fills from local storage one group at a time. It falls back
  to the bare name and fills `{name}` placeholders. `useChangeLocale` builds
  the URL of the locale switch. The cache is a `Translator` class whose
  `Translate` method updates it in place.
- **Colour markup** (`ColorText`, components/common/color-text.tsx).
  `render` cuts a text at its `[name]`, `[#hex]` and `ESC[…m` tags. It draws
  every segment in its tag's colour, turns each line into a span with a break
  between lines, and keys every node. The model keeps `render`'s `while` loop
  and `breakdown`'s `for` loop as methods. They are proved equal to a
  reference rendering built from the segments of the text.
- **Infinite list** (`InfinitePage`, components/common/infinite-page.tsx).
  For a query state it chooses the error, loading, no-result or list view,
  and says what each view holds.
- **Server plugin card** (`PluginCard`, components/server/server-plugin-card.tsx).
  It reads a plugin id and version out of a jar's file name and builds the
  version label. It decides when an update is offered, and what the delete,
  re-download and update mutations report and invalidate.
- **Query schemas** (`SearchQuery`, query/search-query.ts; `UserSchema`,
  query/user.ts). These are the zod validators of the search parameters, of
  the user record and of the notification request. Each is a parse to a
  record, or to the list of the fields that failed.

`Strings` states the JavaScript string operations these rely on:
`toLowerCase`, `trim`, `split`, `indexOf`, `padEnd`, `replace` with a string
pattern, and `slice`/`substring` clamping. `Wrappers` holds `Option`,
`Result` and the field-error helper `Failed`.

Some of the project's design descriptions differ from the code. In each case
the model follows the code:
- The result list does not drop items with duplicate identities; `Flatten`
  keeps every item.
- "No result" is decided by the first page alone, not by all pages.
- An error replaces the list even when pages are already cached.

## Model

| member | source | states |
|---|---|---|
| Middleware.RewritePath | middleware.ts:44 | the redirect path always starts with `/` and the chosen locale |
| Middleware.RewriteKeepsRest | middleware.ts:44 | `/xx/rest`, with `xx` a supported two-letter locale, becomes `/<locale>/rest` |
| Middleware.RewriteUnprefixed | middleware.ts:44 | a path without a locale prefix is kept whole behind `/<locale>` |
| Middleware.Tokens | middleware.ts:11-15 | the header tokens are no more than the split parts (empties dropped) |
| Middleware.Supported | middleware.ts:16 | every kept token is a supported locale |
| Middleware.SupportedHead | middleware.ts:16-19 | some supported token exists iff the supported list is non-empty; its head is the first supported token |
| Middleware.ChooseLocale | middleware.ts:7-25 | the chosen locale is supported or is the default |
| Middleware.ChosenIsSupported | middleware.ts:23-25 | with a supported default, the chosen locale is always supported |
| Middleware.CookieDecides | middleware.ts:7-9 | a non-empty cookie decides alone: its lower-cased value if supported, else the default; the header is never read |
| Middleware.FirstSupportedTokenWins | middleware.ts:9-25 | without a cookie, the first supported header token wins, and the default is used when none is supported |
| Middleware.Decide | middleware.ts:27-50 | a redirect's path starts with `/` and the locale its cookie is set to |
| Middleware.BotsPassOnPrefixedPaths | middleware.ts:33-36 | a bot is never redirected from a locale-prefixed path |
| Middleware.UnprefixedGoesToEnglish | middleware.ts:37-39 | a path without a prefix always goes to `/en` + path with cookie `en`, whatever the request asks for |
| Middleware.PrefixedPathDecision | middleware.ts:31-44 | a prefixed path from a person passes iff its lower-cased first two letters are the chosen locale; otherwise it is moved under that locale |
| Middleware.RedirectSettles | middleware.ts:41-48 | with lower-case two-letter locales, the request that follows a redirect passes through: no redirect loop |
| I18nClient.ParseKey | i18n/client.ts:25-38 | parsing fails (`Bad key`) exactly on the empty text |
| I18nClient.UndottedKeyIsCommon | i18n/client.ts:35-36 | a key without a dot is looked up under its own name in `common` |
| I18nClient.DottedKeyParts | i18n/client.ts:29-36 | `group.name[.more]` gives that group and name; anything after a second dot is ignored |
| I18nClient.Load | i18n/client.ts:43-47 | a miss stores `EMPTY` exactly when storage holds unparsable text; otherwise the stored table, or `{}` |
| I18nClient.FormatTranslation | i18n/client.ts:121-131 | the `forEach` loop equals the specification `Format`; no arguments or an empty text leave the text unchanged |
| I18nClient.FormattedInOrder | i18n/client.ts:126-128 | formatting with `a + b` is formatting with `a`, then with `b` |
| I18nClient.FormattedWithoutBraces | i18n/client.ts:126-128 | a text without `{` is never changed by formatting |
| I18nClient.FormattedReplacesFirstOnly | i18n/client.ts:127 | one argument replaces only the first `{name}`; later occurrences stay |
| I18nClient.TranslationFallsBack | i18n/client.ts:40-81 | `t` answers the bare name when the group is not cached, `EMPTY`, or lacks the entry, or the entry is empty or formats to empty; otherwise the formatted entry |
| I18nClient.TranslationNeverEmpty | i18n/client.ts:70-81 | the answer is the key's name or a non-empty string |
| I18nClient.FirstLookupIsBareKey | i18n/client.ts:40-72 | the first lookup of a group answers the bare name, whatever storage holds |
| I18nClient.LoadedOnce | i18n/client.ts:40-48 | after a lookup its group is cached and other groups are unchanged; a later lookup in it leaves the cache as it is |
| I18nClient.ScalarPinsGroup | i18n/client.ts:42-47 | a stored `null`, number or boolean pins the group: every later key answers its bare name, and the group is never reloaded |
| I18nClient.DanglingDotGivesEmpty | i18n/client.ts:35-50 | as written, `"a."` parses to group `a` with the empty name, and its first lookup answers `""` |
| I18nClient.ParseKeyChecked | i18n/client.ts:25-36 | the intended key check fails exactly on the empty text or an empty name, and otherwise agrees with `ParseKey` |
| I18nClient.TranslationCheckedNeverEmpty | i18n/client.ts:70-81 | with the intended key check, `t` never answers `""` and agrees with `t` on every key it accepts |
| I18nClient.Translator.constructor | i18n/client.ts:14-21 | the translator starts from the given cache and locale flag |
| I18nClient.Translator.Translate | i18n/client.ts:23-82 | `t` returns `Translation` of the old cache and leaves the cache as `KeysAfter`; it starts a fetch iff the locale is set, the key parses and its group was not cached |
| I18nClient.ChangeLocaleUrl | i18n/client.ts:140-148 | the locale switch URL starts with `/` and the new locale |
| I18nClient.ChangeLocaleRewrites | i18n/client.ts:141-148 | `/xx/rest` moves to `/<new>/rest`, and an unprefixed path goes behind `/<new>`, each followed by `?` and the query |
| ColorText.TagLen | components/common/color-text.tsx:8 | a tag at the start of a text is 0 (none) or at least two characters that fit in the text |
| ColorText.TagLenPrefix | components/common/color-text.tsx:8 | whether a text starts with a tag, and its length, depend only on the tag's own characters |
| ColorText.Tags | components/common/color-text.tsx:8 | the tag table has one entry per position, each 0 or a tag that fits |
| ColorText.Search | components/common/color-text.tsx:24 | `search` answers -1 or a position where a tag starts |
| ColorText.SearchFindsFirstTag | components/common/color-text.tsx:24 | `search` answers -1 exactly when no tag starts anywhere, and otherwise the first tag |
| ColorText.MatchesAreTags | components/common/color-text.tsx:36 | every match of the global regular expression is a whole tag |
| ColorText.RunsCoverText | components/common/color-text.tsx:40-68 | the segments opened by the tags lose nothing and keep order: tags and bodies, in turn, are the text |
| ColorText.SegmentsCoverText | components/common/color-text.tsx:24-68 | with the untagged lead, every character of the text lies in exactly one segment, in order |
| ColorText.RunsAreWellCut | components/common/color-text.tsx:40-68 | each segment is opened by a real tag and holds no other tag |
| ColorText.RunsFollowMatches | components/common/color-text.tsx:36-68 | the segments are opened by the matches, in order, one per match |
| ColorText.IndexOfNextTag | components/common/color-text.tsx:59 | `indexOf` of the next match's text, from the end of the current match, finds the next tag and no earlier occurrence |
| ColorText.TagsFindAll | components/common/color-text.tsx:59 | `indexOf` finds every next match where it starts, all along the text |
| ColorText.ColorOfHex | components/common/color-text.tsx:41-45 | a `#` colour is the lower-cased name padded with `0` to at least seven characters |
| ColorText.LineNodesShape | components/common/color-text.tsx:99-115 | line nodes alternate span and break, keys run on by one, and the spans hold the lines in order |
| ColorText.LinesAreSplit | components/common/color-text.tsx:84 | reading a text one newline at a time gives the line nodes of `split('\n')` |
| ColorText.BreakdownShape | components/common/color-text.tsx:79-117 | a segment with k newlines gives k+1 spans and k breaks, alternating, keyed from `key + 1`, and the spans joined by newlines are the segment |
| ColorText.Breakdown | components/common/color-text.tsx:79-117 | the `for` loop of `breakdown` produces the specified nodes and returns the key of its last node |
| ColorText.Add | components/common/color-text.tsx:72-77 | `add` appends one segment's nodes and advances the key by their number |
| ColorText.LayoutKeys | components/common/color-text.tsx:72-117 | node keys run on without gaps: node i has key `key + 1 + i` |
| ColorText.Turn | components/common/color-text.tsx:58-67 | one turn of the `while` loop keeps the loop invariant: nodes so far plus what the rest walks to are unchanged |
| ColorText.LastTurn | components/common/color-text.tsx:50-56 | the last match's piece runs to the end of the text |
| ColorText.Walk | components/common/color-text.tsx:40-68 | the `while` loop appends exactly what its walk over the match list specifies |
| ColorText.RenderingIsWalked | components/common/color-text.tsx:29-68 | the reference rendering from the segments equals the untagged lead followed by the walk over the matches |
| ColorText.RenderTagged | components/common/color-text.tsx:29-68 | after a tag is found, `render` builds the reference rendering of the segments |
| ColorText.Render | components/common/color-text.tsx:21-71 | `render` equals the reference rendering, and its node keys are 1, 2, 3, … in order |
| InfinitePage.Placeholders | components/common/infinite-page.tsx:90-92 | `amount` placeholders, each keyed by its position and showing the skeleton item |
| InfinitePage.LoadingSkeleton | components/common/infinite-page.tsx:87-95 | it throws `RangeError` exactly for an amount `Array` refuses; otherwise it gives that many placeholders, or none without a skeleton |
| InfinitePage.FlattenSize | components/common/infinite-page.tsx:140 | flattening keeps every item: its length is the sum of the page lengths |
| InfinitePage.FlattenAppend | components/common/infinite-page.tsx:140 | flattening keeps page order |
| InfinitePage.FlattenPlaces | components/common/infinite-page.tsx:140 | item j of page k sits, unchanged, after all the items of the earlier pages |
| InfinitePage.ViewOf | components/common/infinite-page.tsx:77-146 | a refused skeleton amount throws whatever the state; otherwise an error wins; the loading view shows iff still loading or no data; an empty page list throws `TypeError` |
| InfinitePage.NoResultByFirstPage | components/common/infinite-page.tsx:116-118 | once pages have arrived, the first page alone decides between no result and the list |
| InfinitePage.ListViewContents | components/common/infinite-page.tsx:120-146 | the list gets all items in page order; the end marker shows iff there is no next page; the skeleton follows the items iff fetching with a non-empty skeleton |
| InfinitePage.LoadingViewContents | components/common/infinite-page.tsx:79-113 | while loading: the spinner without a loader or a skeleton, the placeholders with a skeleton, nothing with only a loader |
| InfinitePage.CallerLoaderDropped | components/common/infinite-page.tsx:79-85 | as written, a caller's own loader is never shown, and the scroller gets none |
| InfinitePage.IntendedLoader | components/common/infinite-page.tsx:79-85 | the intended loader is the caller's own when given, and the spinner when neither a loader nor a skeleton is |
| InfinitePage.EmptyPagesThrow | components/common/infinite-page.tsx:116 | as written, data whose page list is empty makes rendering throw |
| InfinitePage.NoResultChecked | components/common/infinite-page.tsx:116 | the intended no-result test: a result exists iff there is a non-empty first page |
| InfinitePage.NoResultCheckedAgrees | components/common/infinite-page.tsx:116-118 | wherever the written view does not throw, it shows no result exactly when the intended test says so |
| InfinitePage.InitialData | components/common/infinite-page.tsx:62-68 | the initial data is handed over for the parameters it was fetched for, and never without initial parameters |
| InfinitePage.InitialDataForOwnParams | components/common/infinite-page.tsx:66 | with a serialisation that tells values apart, the initial data is handed over exactly for equal parameters |
| InfinitePage.InitialDataBySerialisation | components/common/infinite-page.tsx:66 | parameters that serialise alike share the initial data |
| PluginCard.StripJar | components/server/server-plugin-card.tsx:36 | only the first `.jar` is removed, wherever it is |
| PluginCard.ParseFilename | components/server/server-plugin-card.tsx:36-37 | a name is a MindustryTool plugin iff, without its first `.jar`, it holds exactly one `_`; then id `_` version is that name |
| PluginCard.NotPluginWithoutOneUnderscore | components/server/server-plugin-card.tsx:37 | a name with no `_`, or with several, is not a MindustryTool plugin |
| PluginCard.FirstJarAfter | components/server/server-plugin-card.tsx:36 | after a name without `.jar`, the first `.jar` is the one right after it |
| PluginCard.JoinedNoJar | components/server/server-plugin-card.tsx:36 | an id and a version without `.jar` or `_`, joined by `_`, hold no `.jar` |
| PluginCard.ParseFilenameFirstJar | components/server/server-plugin-card.tsx:36-37 | `id_version.jar` followed by more text parses to the id and the version with that text |
| PluginCard.ParseFilenameRoundTrip | components/server/server-plugin-card.tsx:36-37 | `id_version.jar` parses back to its id and version |
| PluginCard.VersionLabel | components/server/server-plugin-card.tsx:64 | the label starts with `v` and ends with the version, at most one character longer |
| PluginCard.VersionLabelIdempotent | components/server/server-plugin-card.tsx:64 | a label is its own label; a `v` version is shown unchanged |
| PluginCard.UpdateOffered | components/server/server-plugin-card.tsx:157-161 | an update is offered iff not fetching, the latest version is known, and the two times differ (`NaN` differs from everything) |
| PluginCard.UpdateOfferedCases | components/server/server-plugin-card.tsx:157-161 | equal valid times never offer an update; an invalid time always does once the latest is known |
| PluginCard.DeleteSettled | components/server/server-plugin-card.tsx:40-52 | the success toast iff the delete succeeded; exactly the server's `plugins` and `plugin-version` keys are invalidated |
| PluginCard.DeleteInvalidatesBoth | components/server/server-plugin-card.tsx:48-51 | the same two keys are invalidated whether the delete succeeds or fails |
| PluginCard.RedownloadSettled | components/server/server-plugin-card.tsx:105-122 | the success toast iff the request succeeded; `plugin` and `plugin-version` are invalidated |
| PluginCard.UpdateSettled | components/server/server-plugin-card.tsx:141-155 | as written, the update always shows the success toast, and it invalidates what the re-download does |
| PluginCard.UpdateIgnoresFailures | components/server/server-plugin-card.tsx:143-147 | as written, an update whose install and delete both failed still shows success, where a failed re-download shows the error |
| PluginCard.UpdateSettledChecked | components/server/server-plugin-card.tsx:141-155 | the intended update shows success iff both the install and the delete succeeded |
| PluginCard.UpdateCheckedAgreesOnSuccess | components/server/server-plugin-card.tsx:141-155 | the intended update agrees with the written one exactly when nothing failed |
| SearchQuery.Coerce | query/search-query.ts:12-13 | `Number` of a string or of a joined array, `NaN` for a missing value |
| SearchQuery.NumberAtLeast | query/search-query.ts:12-13 | a missing value takes the default; any value passes iff it is not `NaN` and at least the bound, and `NaN` is reported as such |
| SearchQuery.Size | query/search-query.ts:12 | `size` is at least 1, 30 when missing, and a given value is accepted as its `Number` coercion |
| SearchQuery.Page | query/search-query.ts:13 | `page` is at least 0, 0 when missing, and a given value is accepted as its `Number` coercion |
| SearchQuery.Sort | query/search-query.ts:7 | the sort is the given tag when it is one, and the default sort otherwise; it never fails |
| SearchQuery.SortIdempotent | query/search-query.ts:7 | parsing a chosen sort again keeps it |
| SearchQuery.Tags | query/search-query.ts:19-23 | missing tags stay absent; a single value becomes a one-item list; a list is kept |
| SearchQuery.TagsStable | query/search-query.ts:19-23 | tags read back as a list are unchanged: the wrapping happens once |
| SearchQuery.OptionalString | query/search-query.ts:17-18 | a missing value is absent, a single one kept, and a repeated one refused |
| SearchQuery.Locale | query/search-query.ts:40-41 | a locale parse succeeds iff the given value, or the default when missing, is a supported locale |
| SearchQuery.PaginationQuery | query/search-query.ts:27-29 | it succeeds iff `size` and `page` do, and then holds the coerced values or the defaults 30 and 0; the error list names exactly the refused fields |
| SearchQuery.PaginationDefaults | query/search-query.ts:11-14 | with neither field given, a page has 30 items and is the first |
| SearchQuery.PaginationRejectsBelowBounds | query/search-query.ts:12-13 | a size below 1 or a negative page makes the parse fail |
| SearchQuery.ItemPaginationQuery | query/search-query.ts:31-34 | tags and sort never fail and come from their own parses |
| SearchQuery.ItemExtendsPagination | query/search-query.ts:31-34 | the item query succeeds iff pagination does and neither `name` nor `authorId` is repeated, with the same size and page |
| SearchQuery.TranslationPaginationQuery | query/search-query.ts:38-43 | it succeeds iff pagination, both locales and the key parse; the result then holds the pagination values, the given `language` and `target` (`en` and `vi` when missing), both supported, and the given `key` |
| SearchQuery.TranslationDefaults | query/search-query.ts:40-41 | without `language` and `target`, a page translates from `en` to `vi` |
| SearchQuery.TranslationRejectsUnknownLocale | query/search-query.ts:40-41 | an unsupported `language` or `target` fails on that field |
| UserSchema.Utf16Length | query/user.ts:181-183 | a string's JavaScript length is between its character count and twice it, and 0 only for `""` |
| UserSchema.AString | query/user.ts:99 | `z.string()` accepts exactly a string |
| UserSchema.BoundedString | query/user.ts:181-182 | `min`/`max` bound the UTF-16 length |
| UserSchema.NonEmptyString | query/user.ts:118 | `nonempty` refuses exactly `""` |
| UserSchema.NullableString | query/user.ts:120-121 | `nullable` accepts a string or `null`, and refuses an absent key |
| UserSchema.AnInt | query/user.ts:98-100 | `z.int()` accepts exactly the safe integers |
| UserSchema.NullishInt | query/user.ts:113-114 | `nullish` accepts absent, `null` or a safe integer |
| UserSchema.ParseArray | query/user.ts:123-124 | an array parses iff every element does, and the results keep their places |
| UserSchema.ParseRole | query/user.ts:97-103 | a role parses iff the id and position are safe integers and the rest are strings |
| UserSchema.ParseAuthority | query/user.ts:105-110 | an authority parses iff its four fields are strings |
| UserSchema.ParseStats | query/user.ts:112-115 | stats are absent, `null`, or an object whose two counters are nullish integers |
| UserSchema.ABool | query/user.ts:125 | `z.boolean()` accepts exactly a boolean |
| UserSchema.ArrayOf | query/user.ts:123-124 | a field parses as an array iff it is an array whose elements parse |
| UserSchema.Assemble | query/user.ts:117-126 | a refused user always names at least one field |
| UserSchema.ParseUser | query/user.ts:117-126 | an accepted user is valid (non-empty id, safe counters and role numbers) and keeps the given id and ban flag; a non-object is refused |
| UserSchema.IntRoundTrip | query/user.ts:98 | a safe integer reads back as itself |
| UserSchema.CountRoundTrip | query/user.ts:113-114 | an accepted counter reads back from its entry as itself |
| UserSchema.ArrayRoundTrip | query/user.ts:123-124 | an array whose elements parse to `xs` parses to `xs` |
| UserSchema.StatsRoundTrip | query/user.ts:112-115 | accepted stats read back as themselves |
| UserSchema.RoleRoundTrip | query/user.ts:97-103 | an accepted role reads back as itself |
| UserSchema.RolesRoundTrip | query/user.ts:123 | a list of accepted roles reads back as itself |
| UserSchema.AuthoritiesRoundTrip | query/user.ts:124 | a list of authorities reads back as itself |
| UserSchema.UserJsonEntries | query/user.ts:117-126 | an encoded user holds each field under its own key |
| UserSchema.UserJsonFields | query/user.ts:117-126 | each field of an encoded valid user reads back as the user's own |
| UserSchema.UserRoundTrip | query/user.ts:117-136 | encoding a valid user and parsing it again gives the same user |
| UserSchema.ParseUserIdempotent | query/user.ts:130-136 | a parsed user, encoded again, parses to itself |
| UserSchema.ImageFieldsNullableNotOptional | query/user.ts:120-121 | `imageUrl` and `thumbnail` may be `null`, but a user without them is refused |
| UserSchema.EmptyIdRefused | query/user.ts:118 | an empty id is refused on that field |
| UserSchema.UnknownKeysIgnored | query/user.ts:117-126 | two objects that agree on the schema's keys parse alike |
| UserSchema.ParseNotification | query/user.ts:180-184 | a notification is accepted iff its title is 1–1024 UTF-16 units, its content 1–4096, and its recipient non-empty |
| UserSchema.NotificationRoundTrip | query/user.ts:180-184 | a notification is accepted exactly when valid, and then read back unchanged |
| UserSchema.NotificationTooLong | query/user.ts:181-182 | a title over 1024 units, or content over 4096, is refused on that field |

## Left out

- `Strings.Lower` lowercases ASCII letters only. `toLowerCase` and `toLocaleLowerCase` lowercase all of Unicode.
- ColorText.ColorOf: lowercases tags with ASCII `Lower`. color-text.tsx:41 uses `toLocaleLowerCase`, which depends on the browser's locale: under Turkish, `[WHITE]` asks `getColor` for `whıte`. Non-ASCII capitals are not lowered either.
- Middleware.ChooseLocale: lowercases the cookie and the header tokens with ASCII `Lower`. middleware.ts:7 and :15 use full Unicode `toLowerCase`, so U+212A KELVIN SIGN becomes `k` there and not here. The same holds for the path comparison in `Middleware.Decide` (middleware.ts:31).
- I18nClient.Translation: looks up only own properties. The group cache and each table are plain JavaScript objects. A group or name that is an `Object.prototype` member (`toString`, `constructor`, …) finds an inherited function at i18n/client.ts:40 and :74. For example, `t("toString.x")` answers `x` and the group is never loaded. `t("common.constructor")` returns the `Object` function, or throws at :127 when arguments are given.
- I18nClient.Load: local storage is modelled as absent, a table of strings, a scalar (`null`, number, boolean) or unparsable text. A stored array or string also has own keys (its indices), and a table with non-string entries makes `formatTranslation` return or throw on a non-string. Neither case is modelled.
- I18nClient.Formatted: the arguments are a sequence in the order `Object.entries` gives them (i18n/client.ts:126). That order lists integer-like keys first, in ascending order. The caller supplies the order here; the reordering is not modelled.
- The translation fetch, `setTranslation`, the write-back to local storage and the missing-key warning (i18n/client.ts:53-67, :77) are effects. `Translate` reports only whether a fetch starts.
- The server-rendering branch of `useI18n` (i18n/client.ts:86-116) is not modelled. It fetches the group on every call and suspends on the promise.
- The current locale, the `locales` list and `defaultLocale` are parameters. i18n/config is not part of this model.
- `useChangeLocale`'s store update and cookie write (i18n/client.ts:145-146) are effects. The query string is taken as already serialised by `URLSearchParams`.
- Middleware.Decide: the redirect keeps the request's query string (middleware.ts:45-46); the model gives only the new path and cookie. Bot detection is an input. The route matcher (middleware.ts:53-55), which keeps API, asset and sitemap paths away from the middleware, is not modelled.
- SearchQuery: assumes zod 3 for the plain `'zod'` import of search-query.ts:1. There a missing `tags` stays `undefined`, and `±Infinity` passes `gte`. Under zod 4 a missing `tags` gives `[]` and infinities are refused. `UserSchema` follows `zod/v4`, which user.ts:11 names. `sortTag`, `defaultSortTag` and the string-to-number conversion are parameters.
- UserSchema: JSON numbers are finite reals. Only the field names of a failed parse are kept, not zod's issue messages. The HTTP calls of user.ts (`getMe`, `getUser`, `sendNotification`, …) are not modelled beyond the schema each one applies.
- InfinitePage.InitialData: takes the serialisation as a parameter `stringify` in place of `JSON.stringify` (infinite-page.tsx:66). Key order and the dropping of `undefined` fields matter only through what `stringify` equates.
- InfinitePage.LoadingSkeleton: takes the skeleton amount as a finite real. `Array(NaN)` and `Array(±Infinity)`, which also throw `RangeError`, are not modelled.
- InfinitePage: React elements are opaque values, and the query hook is an input state. The scroller's scrolling, `loadMore`, `reversed` and the class names are not modelled.
- PluginCard.UpdateOffered: `new Date(Number(version)).getTime()` and `new Date(data.version).getTime()` (server-plugin-card.tsx:161) are given as times, or `NaN`. The date parsing and the `Number` conversion are not modelled.
- PluginCard: toasts are their translation keys, and invalidation is the list of query keys. The mutation requests, the `Batcher` version check and the rendering are not modelled.
- ColorText: `getColor` is a parameter; lib/utils is not part of this model. React keys are the `key` numbers of the nodes, and element styles are the colour strings.

## Findings

| source | as written | input that shows it | evidently intended | confidence | as-written member | corrected member |
|---|---|---|---|---|---|---|
| i18n/client.ts:35-50, 70-81 | a key ending in a dot splits into a group and the empty name, and `t` answers that empty name | `t("a.")` with group `a` not yet cached answers `""` | refuse a key with an empty name like the empty key (`Bad key`), so `t` never answers `""` | not executed | I18nClient.DanglingDotGivesEmpty | I18nClient.TranslationCheckedNeverEmpty |
| components/common/infinite-page.tsx:79-85 | the `loader` memo yields the spinner or `undefined`, so a caller's own loader is never used | `loader` given, no skeleton, still loading: the loading view is empty | the caller's loader when given, else the spinner without a skeleton | not executed | InfinitePage.CallerLoaderDropped | InfinitePage.IntendedLoader |
| components/common/infinite-page.tsx:116 | `data.pages[0].length` is read when `pages` is an empty array | `data = { pages: [] }`, not loading: rendering throws `TypeError` | an empty page list shows no result | not executed | InfinitePage.EmptyPagesThrow | InfinitePage.NoResultCheckedAgrees |
| components/server/server-plugin-card.tsx:143-147 | the update awaits `Promise.allSettled`, which never rejects, so `onError` never runs | install and delete both fail: the success toast shows | success only when both requests succeeded | not executed | PluginCard.UpdateIgnoresFailures | PluginCard.UpdateCheckedAgreesOnSuccess |
