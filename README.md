# dxp-components utilities: a Dafny model

This project models the deterministic string and record computations in the
shared utility module `src/utils/index.ts` of the dxp-components front-end
library:

- **Product identifier resolution** (`getProductIdentificationValue`): the
  display identifier of a product. It prefers the first `goodIdentifications`
  entry of the form `<type>/<value>` over the product's own field named
  `<type>`. An empty record yields nothing.
- **OMS link** (the link expression in `goToOms`): a URL is cleaned by one
  replacement of the non-global pattern `/\/api\/?|\/$/`. A bare instance
  name becomes `https://<name>.hotwax.io`. The commerce entry point
  `/commerce/control/main?token=<token>` is then appended.
- **Login URL** (`getAppLoginUrl`): the embedded launchpad with `shop` and
  `host` query parameters for an embedded session. Otherwise it is the plain
  configured login URL.
- **Toast options** (`showToast`): the options record passed to the toast
  controller. It holds a `Dismiss`/`cancel` button followed by the caller's
  buttons, a 3000 ms duration and the `bottom` position.

Modules: `Wrappers` (Option), `Text` (JavaScript `split` on one character,
with `IndexOf`, the helper that finds the separator, and `Join` as the inverse
of `Split`), `ProductIdentification`,
`OmsLink`, `LoginUrl` and `Toast`.

The auth store (`useAuthStore`) and the process environment
(`VUE_APP_EMBEDDED_LAUNCHPAD_URL`, `VUE_APP_LOGIN_URL`) are explicit
parameters. An environment variable that is unset is `None`. A template
literal renders it as the text `undefined`, and the non-embedded branch
returns it unchanged.

A product record is a map of its string-valued fields plus the optional
`goodIdentifications` list. The record is empty only when it has no fields and
no list, because `Object.keys` counts the list's key too. The key
`goodIdentifications` names only the list, never a string field (`WellFormed`).

Two behaviours of the code differ from a plain reading of its description, and
the model follows the code:

- A matching identification yields `split('/')[1]`. That is the segment between
  the first and second `/`, not everything after the first `/`. So `"SKU/a/b"`
  yields `"a"` and `"SKU/"` yields `""`.
- The OMS pattern removes its leftmost match wherever it sits. So
  `"http://h/api/v1"` becomes `"http://hv1"`, and in `"http://h/api/x/"` only
  `/api/` is removed and the final `/` stays.

## Model

| member | source | states |
|---|---|---|
| `Text.IndexOf` | src/utils/index.ts:32-33 | the helper `Split` uses to find the separator: the result is the position of the first occurrence of the separator, and None exactly when it does not occur |
| `Text.Split` | src/utils/index.ts:32-33 | `split` yields at least one part, and a second part exactly when the separator occurs; no part contains the separator; joining the parts with it gives the input back |
| `Text.SplitHead` | src/utils/index.ts:32-33 | the first part is the longest separator-free prefix of the input |
| `Text.SplitAfterFirst` | src/utils/index.ts:32-33 | splitting `a + sep + b` with `a` separator-free yields `a` followed by the parts of `b` |
| `ProductIdentification.IsEmpty` | src/utils/index.ts:22 | `!Object.keys(product).length` holds of exactly one record: no fields and no `goodIdentifications` key |
| `ProductIdentification.Field` | src/utils/index.ts:26 | `product[productIdentifier]` read among the record's own keys: present exactly when the record has that key, and then that field's value |
| `ProductIdentification.Identifies` | src/utils/index.ts:29 | an entry that starts with `type + "/"` is longer than the type and has a `/` right after it, so its split has a segment 1 |
| `ProductIdentification.Identifications` | src/utils/index.ts:29 | `product['goodIdentifications']?.` gives the list when the record has one and `[]` otherwise, so an absent list and an empty one both yield no identifying entry |
| `ProductIdentification.FindIdentification` | src/utils/index.ts:29 | `find` returns the first index whose entry starts with `type + "/"`, and None when no entry does |
| `ProductIdentification.ProductIdentificationValue` | src/utils/index.ts:19-37 | for a record whose list key holds the list, an empty record yields nothing; a value that differs from the direct field contains no `/` |
| `ProductIdentification.NoIdentificationYieldsField` | src/utils/index.ts:26-31 | a non-empty record with no identifying entry, or no list at all, yields its direct field `product[type]` |
| `ProductIdentification.FirstIdentificationWins` | src/utils/index.ts:29-33 | the first identifying entry in list order decides the value, as segment 1 of its `/`-split |
| `ProductIdentification.FieldIgnoredWhenIdentified` | src/utils/index.ts:29-34 | once some entry identifies the type, records that differ only in their fields give the same value |
| `ProductIdentification.SegmentTaken` | src/utils/index.ts:32-33 | for a type without `/`, entry `type/rest` yields the part of `rest` before its first `/` (all of `rest` when it has none) |
| `ProductIdentification.EmptySegmentExample` | src/utils/index.ts:28-33 | `"SKU/"` yields the present empty string and overrides the direct field |
| `ProductIdentification.SecondSegmentOnlyExample` | src/utils/index.ts:32-33 | `"SKU/a/b"` yields `"a"` |
| `ProductIdentification.PrefixIncludesSlashExample` | src/utils/index.ts:29 | `"SKUX/1"` does not identify `"SKU"`, so the direct field is kept |
| `OmsLink.MatchLengthAt` | src/utils/index.ts:14 | a match of the pattern at a position lies inside the string and begins with `/` |
| `OmsLink.FirstMatchFrom` | src/utils/index.ts:14 | the scan returns the leftmost position holding a match, with that match's length, and None when no position does |
| `OmsLink.ReplaceFirstMatch` | src/utils/index.ts:14 | the replacement removes at most five characters, and leaves a string with no match unchanged |
| `OmsLink.OmsBase` | src/utils/index.ts:14 | a URL (starting with `http`) loses at most five characters; a bare name becomes a base that starts with `https://<oms>` and is 18 characters longer (`https://` and `.hotwax.io`) |
| `OmsLink.OmsLink` | src/utils/index.ts:13-14 | every link ends with `/commerce/control/main?token=` followed by the token |
| `OmsLink.BareNameLink` | src/utils/index.ts:14 | when `oms` does not start with `http`, the link is `https://<oms>.hotwax.io/commerce/control/main?token=<token>` |
| `OmsLink.UrlLinkRemovesLeftmostMatch` | src/utils/index.ts:14 | for a URL, exactly the leftmost match is cut out, and the rest of `oms` is kept in order |
| `OmsLink.UrlLinkWithoutMatch` | src/utils/index.ts:14 | a URL with no `/api` and no final `/` is used unchanged |
| `OmsLink.ApiSuffixStripped` | src/utils/index.ts:14 | a URL ending in `/api/`, `/api` or `/` whose remaining text has no `/api` is reduced to that remaining text |
| `OmsLink.SingleRemovalExample` | src/utils/index.ts:14 | only one match is removed: `http://h/api/x/` becomes `http://hx/` |
| `OmsLink.InnerApiExample` | src/utils/index.ts:14 | a match inside a path is removed too: `http://h/api/v1` becomes `http://hv1` |
| `LoginUrl.Interpolate` | src/utils/index.ts:65 | a template literal renders a set environment value as itself and an unset one as `undefined` |
| `LoginUrl.AppLoginUrl` | src/utils/index.ts:62-69 | an embedded session yields a URL that starts with the launchpad URL and `/?shop=`; otherwise the result is the configured login URL exactly, even when unset |
| `LoginUrl.NotEmbeddedIgnoresShopAndHost` | src/utils/index.ts:66-68 | outside an embedded session, shop and host do not affect the result |
| `LoginUrl.EmbeddedExample` | src/utils/index.ts:64-65 | launchpad `https://lp.example` with shop `acme` and host `h1` gives `https://lp.example/?shop=acme&host=h1` |
| `LoginUrl.EmbeddedUrlDeterminesShopAndHost` | src/utils/index.ts:65 | the embedded URL determines its shop and host when shops contain no `&` |
| `Toast.DefaultButtons` | src/utils/index.ts:40-43 | the initial button list holds exactly one button, labelled `Dismiss`, with role `cancel` |
| `Toast.ShowToastOptions` | src/utils/index.ts:39-53 | the options keep the message, a duration of 3000 and the position `bottom`; the buttons are `Dismiss` with role `cancel`, then the caller's buttons in their order, so there are 1 + n of them (1 without caller buttons) |

## Left out

- `window.open` in `goToOms` is a browser side effect. Only the link is modelled.
- `toastController.create` and `present` in `showToast` are not modelled, nor is the promise `showToast` returns. Only the options record is modelled.
- Toast.ShowToastOptions: caller buttons are label-and-role records. Handlers, icons and other Ionic button fields are not modelled. A truthy non-array `configButtons` is not modelled either.
- `getCurrentTime` is not modelled. It reads the wall clock, and its zone and format rules belong to Luxon, which is not part of this model.
- `createShopifyAppBridge`, `getSessionTokenFromShopify` and `openPosScanner` are not modelled. They wrap Shopify App Bridge calls and asynchronous callbacks, which are not part of this model.
- `getPackingSlipUrl` is not modelled. It is an HTTP request, object-URL creation, an App Bridge redirect and logging.
- `translate`, `JSON.parse` of the environment configuration and `useAuthStore` are ambient state. The values they supply are parameters.
- ProductIdentification.Field: members inherited from `Object.prototype` are not modelled. In the source, `product["constructor"]`, `product["toString"]` or `product["__proto__"]` yields a function or an object. The model reads them as absent, and so `ProductIdentificationValue` gives None for such a type when no entry identifies it.
- ProductIdentification.ProductIdentificationValue: field values are strings only. The case where the identifier type is `goodIdentifications` itself is not modelled; there `product[type]` would be the list.
- ProductIdentification.ProductIdentificationValue: the TypeErrors are not modelled. A `product` that is not an object (null or undefined) throws at `Object.keys`. A `goodIdentifications` that is not an array throws at its `find` call. The record type cannot hold a non-object product. It requires `WellFormed`, so `goodIdentifications` is never an ordinary string field.
