# Site base class and adapter resolution of fanfic-parser

This project models `site.js` of fanfic-parser. That file holds the base class
`Site`, which every site adapter (AO3, FanFiction.net, Reddit, Scryer, Wattpad,
XenForo forums) extends, and the dispatcher `Site.create`, which picks the
adapter module for an engine identifier. The identifier is either a URL or a
module name.

The model is pure and lives in five modules:

- `Wrappers`: `Option` (for `null`/`undefined`) and `Outcome` (a JavaScript
  call that returns a value or throws an `Error` with a message).
- `JsText`: the `String.prototype` operations the file uses, on `seq<char>`.
  These are `includes`, `trim` (with ECMAScript's white-space and
  line-terminator set) and `replace(/,/g, '')`.
- `JsNumber`: `Number(string)` as ECMAScript's StringToNumber defines it, and
  `String(integer)`.
- `SiteBase`: the `Site` methods. This covers link normalisation
  (`normalizeLink` and its two delegates), `fetchLink`, `num`, and the two
  stubs that always throw (`ficLinkFromId`, `parseScan`). The only state of a
  `Site` is its display name, set once and never changed, so a site is a
  value.
- `SiteCreate`: `Site.create` as the source writes it (an if/else chain). It
  is paired with the same dispatch written as an ordered table of hostname
  matchers followed by the forum fallback and the loader. A lemma proves the
  two equal, and lemmas state precedence, the fallback and the failure paths.

Inputs that belong to Node rather than to this file are parameters:

- `url.resolve(base, href)` is a function argument `resolve`.
- The result of `url.parse(engine)` is a `ParsedUrl` value.
- `require` in the lookup by name is a `Loader` with two name sets: the
  built-in adapters under `./site/` and the installed external modules. The
  six adapter files the hostname rules load are taken to be present.

Behaviour of the code that is easy to misread:

- Normalising twice without a base is not always a no-op. Only one trailing
  slash is removed per pass, so a link ending in `//` loses another slash the
  second time. `NormalizeIdempotentUnlessDoubleSlash` states exactly when a
  second pass changes nothing.
- The base `ficLinkFromId` throws the fixed message
  `ficLinkFromId is unimplemented`. The adapter's name is not in it.
- The failure message of `Site.create` is kept word for word:
  `Could find site module with: <engine>`.
- A URL with a hostname that matches no rule fails with that same message.
  It is never looked up by name. When Node's parser gave it a `null`
  pathname (a scheme without `//`, such as `mailto:a@b.c`), the forum test
  itself fails instead, with a `TypeError`.

## Model

| member | source | states |
|---|---|---|
| `SiteBase.NewSite` | site.js:6-8 | a new base site has no display name (`undefined`) |
| `SiteBase.ForceHttps` | site.js:15-16 | a literal leading `http:` becomes `https:` and the rest is kept; any other string is unchanged, even with `http:` further in; the result never starts with `http:` |
| `SiteBase.StripTrailingSlash` | site.js:17 | exactly one trailing `/` is removed when present and nothing else changes; the result ends in `/` exactly when the input ended in `//` |
| `SiteBase.NormalizeLink` | site.js:9-19 | an absent or empty href is returned as it was, whatever the base; otherwise the result is the resolved, scheme-upgraded string, less its trailing slash exactly when it has one; it ends in `/` only if that string ended in `//`, and never starts with `http:` |
| `SiteBase.NormalizeIgnoresFalsyBase` | site.js:10-13 | `Truthy` (JavaScript truthiness of `href` and `base`): a missing or empty base is falsy, so the resolver is never called, so the result is the same as with no base and any resolver |
| `SiteBase.NormalizeWithBase` | site.js:13 | `Resolved` (the optional `url.resolve` step): with a non-empty base, normalising equals resolving against the base and then normalising without one |
| `SiteBase.InsecureAndSecureAgree` | site.js:15-16 | without a base, `http:` and `https:` versions of a link normalise to the same string |
| `SiteBase.ForceHttpsIdempotent` | site.js:16 | upgrading the scheme twice is the same as once |
| `SiteBase.NormalizeWithoutBase` | site.js:9-18 | without a base, every string (the empty one included) comes out upgraded and with one trailing slash stripped |
| `SiteBase.ForceHttpsKeepsEnd` | site.js:16 | the scheme upgrade does not change whether a string ends in `//` |
| `SiteBase.NormalizeIdempotentUnlessDoubleSlash` | site.js:9-18 | without a base, normalising a normalised link changes nothing if and only if the original did not end in `//` |
| `SiteBase.NormalizeUpgradesScheme` | site.js:15-17 | without a base, `http:` followed by text that does not end in `/` becomes `https:` followed by the same text |
| `SiteBase.NormalizeExampleUpgrade` | site.js:15-17 | `http://example.com/a` becomes `https://example.com/a` |
| `SiteBase.NormalizeStripsOneSlash` | site.js:17 | without a base, a secure link with one slash added comes back without that slash |
| `SiteBase.NormalizeExampleStrip` | site.js:17 | `https://example.com/a/` loses its slash, and `https://example.com/a//` only one of its two |
| `SiteBase.NormalizeExampleAbsent` | site.js:10 | `undefined` and the empty string pass through even when a base is given |
| `SiteBase.NormalizeFicLink` | site.js:21-23 | the base class's fic-link normalisation is `normalizeLink` for every href and base |
| `SiteBase.NormalizeAuthorLink` | site.js:25-27 | the base class's author-link normalisation is `normalizeLink` for every href and base |
| `SiteBase.FetchLink` | site.js:29-31 | the base `fetchLink` hands back its argument |
| `SiteBase.FicLinkFromId` | site.js:33-35 | the base `ficLinkFromId` never returns a value and always throws `ficLinkFromId is unimplemented` |
| `SiteBase.ParseScan` | site.js:46-48 | the base `parseScan` never returns a value; its error message is exactly the unsupported-operation text, the site's name (`undefined` when unset), and the scan link in parentheses as a template literal prints it (`null` and `undefined` kept apart): it starts with the first two and ` (`, ends with ` (<link>)` and has no other characters |
| `SiteBase.Num` | site.js:41-44 | `null` and `undefined` come back as they were, any other value becomes a number, and blank text gives 0 |
| `SiteBase.NumIgnoresCommas` | site.js:43 | deleting every comma from the text first does not change the count |
| `SiteBase.NumIgnoresPadding` | site.js:43 | white space around the text does not change the count |
| `SiteBase.NumOfInteger` | site.js:43 | an integer passed to `num` comes back as the same number |
| `SiteBase.NumOfGroupedCount` | site.js:41-44 | a count written with thousands separators reads back as that count |
| `SiteBase.NumExampleGrouped` | site.js:41-44 | `num("1,234")` is 1234 |
| `SiteBase.NumExampleCommas` | site.js:41-44 | `num("1,2,3")` is 123 |
| `SiteBase.NumExamplePadded` | site.js:41-44 | `num(" 1,2,3 ")`, or the same text with the same white space on both sides, is 123 |
| `SiteBase.NumExampleNaN` | site.js:41-44 | `num("abc")` is `NaN`; `num(null)` and `num(undefined)` return their argument |
| `JsNumber.StringToNumber` | site.js:43 | `Number` of blank text is 0; it yields `NaN` exactly for non-blank text that, once trimmed, is neither a `0x`/`0o`/`0b` integer nor a signed decimal literal; a fraction, exponent or `Infinity` is only ever a numeric literal; the integer value of digit text is fixed by `StringToNumberOfDigits`, `StringToNumberOfZeroPadded` and `StringToNumberOfIntToString` |
| `JsNumber.StringToNumberOfDigits` | site.js:43 | `Number` of a non-empty decimal digit string is the value of its digits, leading zeros included |
| `JsNumber.StringToNumberOfZeroPadded` | site.js:43 | any number of leading zeros before the digits of `n` still read as `n` (`Number("007")` is 7); every non-empty digit string has this form |
| `JsNumber.StringToNumberOfNonNumeric` | site.js:43 | text whose first non-white-space character is not a digit, sign, `.` or the `I` of `Infinity` converts to `NaN` |
| `JsNumber.IntToString` | site.js:43 | `String` of an integer is a decimal literal denoting it: a `-` exactly for a negative number, never a `+`, and no leading zero |
| `JsNumber.StringToNumberTrims` | site.js:43 | `Number` ignores surrounding white space |
| `JsNumber.StringToNumberOfIntToString` | site.js:43 | `Number(String(n))` is `n` for every integer `n` |
| `JsNumber.NatToDigits` | site.js:43 | the decimal text of a natural number is non-empty, all digits, has no leading zero and denotes the number |
| `JsNumber.UngroupThousands` | site.js:43 | deleting the commas of a thousands-grouped digit string gives the digits back |
| `JsText.TrimPadded` | site.js:43 | `trim` of a string padded with white space is the `trim` of the string |
| `JsText.TrimSplit` | site.js:43 | `trim` removes only white space, and only at the two ends |
| `JsText.TrimOfRemoveAll` | site.js:43 | deleting commas and trimming commute, up to the white space the deletion exposes |
| `JsText.RemoveAll` | site.js:43 | the result contains no comma, is no longer than the input, and equals a comma-free input |
| `JsText.RemoveAllKeepsOthers` | site.js:43 | deleting every comma keeps each other character as often as it occurs, so the result is shorter by the number of commas |
| `JsText.RemoveAllAppend` | site.js:43 | deleting every comma distributes over concatenation, so the kept characters stay in their order |
| `JsText.TrimIsTrimmed` | site.js:43 | `trim`'s result has no white space at either end |
| `JsText.TrimIdempotent` | site.js:43 | trimming twice is trimming once |
| `JsText.TrimOfTrimmed` | site.js:43 | `Trim` leaves a string that neither begins nor ends with white space unchanged |
| `JsText.IncludesIff` | site.js:62-73 | `includes` holds exactly when the substring occurs at some index |
| `JsText.IncludesInfix` | site.js:62-73 | `includes` finds a substring whatever text stands before and after it |
| `JsText.OccursAtIncludes` | site.js:62-73 | `Includes` holds whenever the substring occurs at some index |
| `SiteCreate.Create` | site.js:59-89 | every failure carries `Could find site module with: ` followed by the engine, except a hostname URL that matches no hostname rule and has a `null` pathname, which throws the `TypeError` of reading `includes` of `null`; a hostname URL only ever yields one of the six built-in adapters; a non-URL engine is looked up first as a built-in, then as an external module, and fails when neither exists |
| `SiteCreate.FirstMatch` | site.js:62-71 | the table lookup finds nothing exactly when no domain of the table occurs in the hostname |
| `SiteCreate.FirstMatchIsFirst` | site.js:62-71 | when matcher `k` fires and no earlier one does, the lookup returns matcher `k`'s adapter |
| `SiteCreate.CreateIsTableDispatch` | site.js:61-75 | the if/else chain equals the ordered table (AO3, FanFiction.net, Reddit, Scryer, Wattpad) followed by the forum fallback and then the loader |
| `SiteCreate.HostMatchWins` | site.js:61-75 | when a hostname matcher fires, the first one that does decides the adapter, whatever the path holds (a `/forums/` path cannot shadow it) |
| `SiteCreate.ForumFallback` | site.js:72-88 | when no hostname matcher fires, a `/forums/` or `/tags/` path gives the XenForo adapter, a `null` path throws a `TypeError`, and any other path fails with the not-found message |
| `SiteCreate.ForumPathOfSegment` | site.js:73 | any path with a `/forums/` or `/tags/` segment, wherever it stands, passes the forum test |
| `SiteCreate.ForumPathIff` | site.js:73 | `IsForumPath` holds exactly when `/forums/` or `/tags/` occurs at some index of the path |
| `SiteCreate.WithoutHostnameByName` | site.js:61-87 | `HasHostname` (`link && link.hostname`): a URL without a hostname, or with an empty one, is looked up by name exactly as an engine that does not parse |
| `SiteCreate.HostUrlIgnoresLoader` | site.js:61-88 | for a hostname URL the engine is never looked up by name, so the result does not depend on the names the lookup by name could load |
| `SiteCreate.HostUrlSucceedsIff` | site.js:61-88 | a hostname URL resolves exactly when some hostname matcher fires or the path is present and has a forum or tag segment |
| `SiteCreate.ContainmentNotSuffix` | site.js:66-67 | `reddit.com` anywhere in a hostname (for example `www.reddit.com.example.org`) routes to Reddit unless an earlier domain also occurs |

## Left out

- `url.resolve` (site.js:13) is Node's library resolver and its code is not part of this model. It is the parameter `resolve`, so no property depends on how it resolves.
- `url.parse` and `parseURL` (site.js:51-57) are library parsing. Their outcome is the input `ParsedUrl`: either unparsable, or a hostname and a pathname, each possibly missing.
- `SiteCreate.Create`: the `TypeError` for a `null` pathname is an `Outcome.Thrown` like any `Error`; its message is V8's current wording, which other engines and older Node versions phrase differently.
- `require` (site.js:77-86) is Node's module loader. In the lookup by name it is the two name sets of `Loader`. A load error other than `MODULE_NOT_FOUND`, which the source rethrows, is not modelled.
- `SiteCreate.Create`: the six adapter files the hostname rules load (site.js:63-74) are assumed to ship with the package, so a matching hostname always returns its adapter. If one were missing, the source would throw `MODULE_NOT_FOUND` there, without a try; `Loader` governs only the lookup by name (site.js:77-86).
- `SiteCreate.HostUrlIgnoresLoader`: holds because the hostname branch's own `require` calls (site.js:63-74) are assumed to succeed and lie outside `Loader`; it says nothing about a package whose adapter files are missing.
- `newFic` and the `Fic` class (site.js:37-39, 93): `Fic` is not part of this model and its code is not visible.
- The concrete adapters under `./site/` are not part of this model. They appear only as the file names `Create` returns.
- `JsNumber.StringToNumber`: literals with a decimal point, an exponent or `Infinity` are recognised as numbers (`FloatLiteral`) but their floating-point value is not computed. Integer results are exact and are not rounded to a double above 2^53. `-0` is the integer 0.
- `JsNumber.IntToString`: uses plain decimal notation for every integer. JavaScript switches to exponent notation from 10^21 on.
- `SiteBase.Num`: its argument is `undefined`, `null`, a string or an integer. Booleans, objects and non-integer numbers are not modelled.
- `SiteBase.NormalizeLink`: `null` and `undefined` are both `None`, and both are returned unchanged. A non-string href, on which the source throws (in `url.resolve` when a base is given, at `replace` otherwise), is not modelled.
- `SiteBase.ParseScan`: the element type of a scan result belongs to the adapters. The base class never produces one, so it is modelled as `seq<string>`. The scan link is `undefined`, `null`, a string or an integer; other values and their template-literal text are not modelled. The site name is a string or `undefined`, the values this model assumes for it.
