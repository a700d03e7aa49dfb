# RoleDeck core, modelled in Dafny

RoleDeck lets a user publish resume "decks" under a personal subdomain. For example, `acme.lvh.me:3000/t/Stripe/backend` serves the deck for company "Stripe" and slug "backend" of the user whose handle is `acme`. The project models these parts of the application and proves properties about them:

- **Tenant router** (`Proxy`, proxy.js). It decides, from the `Host` header and the path, whether a request passes through or is rewritten to the internal path `/user/{subdomain}{pathname}`. It also models the `config.matcher` pattern that keeps API routes, static assets and root-level files away from the router.
- **Dashboard** (`Dashboard`, app/dashboard/page.js):
  - the link, title and subtitle of each deck card;
  - `fetchDecks` and `handleArchive`.
  `LinkRoundTrip` connects the link builder to the router: the host and path a deck link produces are rewritten to that user's tenant page.
- **Deck server actions** (`Actions`, app/actions.js):
  - `createDeck`: file extension, storage path, error exits and the inserted row, over an in-memory `decks` table and storage bucket;
  - `deleteDeck`: a soft delete scoped by id and owner.
- **Duplicate dialog** (`DuplicateDeck`, components/DuplicateDeckButton.js): the initial form, the field edits, and the open/loading state around the call.
- **Billing page** (`Billing`, app/dashboard/billing/page.js, with the plan table of config.js): plan lookup, header, "current plan" marker, price display, cycle toggle and checkout click.
- **Payment webhook** (`Webhook`, app/api/webhook/lemonsqueezy/route.js): the signature gate, reading the event, and the entitlement update of the `profiles` table.
- **Template renderer** (`StudioRenderer`, components/StudioRenderer.js):
  - section dispatch;
  - hero fallbacks;
  - resume-snapshot truncation;
  - the gallery's signed-URL loop and tiles.
- **Template studio** (`Studio`, app/dashboard/studio/page.js): JSON import, section count, confirmed hard delete and the template listing.
- **New-template page** (`StudioNew`, app/dashboard/studio/new/page.js): the preset table, preset selection and `handleSubmit`.

## Helper modules

- `Js`: the JavaScript semantics the code relies on:
  - `String.prototype.replace` with a string pattern (first occurrence only);
  - template-literal interpolation of `null`;
  - `||` on strings;
  - the `\s` class;
  - UTF-8 byte length;
  - decimal printing of integers;
  - JSON values with truthiness, property access and optional chaining.
- `Seqs`: the record store's filters and its `order(..., { ascending: false })`, specified as "sorted and a permutation".
- `Records`: the table rows.

## External calls

These become parameters of the model:

- the auth provider's user;
- store answers and errors;
- storage upload success;
- PDF text;
- the clock;
- the HMAC hex digest, as an uninterpreted function of secret and body;
- `JSON.parse`;
- storage URL signing;
- confirmation dialogs;
- the outcomes of the `duplicateDeck` and `createTemplate` server actions.

State that the components update in place is a Dafny `class` whose methods state the whole new state: `DashboardPage`, `DeckStore`, `DuplicateDialog`, `BillingPage`, `ProfileTable`, `GallerySection`, `StudioPage`, `TemplateTable` and `NewTemplatePage`.

## How the router and its matcher behave

- The router strips the first occurrence of `.lvh.me:3000` anywhere in the host (proxy.js:16), whether or not it ends the host. `a.lvh.me:3000.x` therefore rewrites with subdomain `a.x` (`Proxy.MiddleSuffixExample`).
- The rewrite target is built from the pathname only (proxy.js:21). No query text is written into it.
- The matcher tests only the text right after the leading `/` against `[\w-]+\.\w+` (proxy.js:4), so a dotted name in a later segment does not exclude the path. `/docs/guide.pdf` is therefore intercepted (`Proxy.NestedFileIntercepted`). The dot in `favicon.ico` is unescaped and matches any character except a line terminator.

## Behaviour the code shows that is worth knowing

- A rejected `duplicateDeck` promise throws before `setLoading(false)`, so the dialog stays in its loading state (`DuplicateDeck.DuplicateDialog.FinishDuplicate`).
- The webhook stores the decimal string of `variant_id`. The configured plan ids are the placeholders `VARIANT_ID_...`, so the billing page never finds a plan for a stored price (`Webhook.StoredPriceMatchesNoConfiguredPlan`). A profile row that is missing entirely matches the first plan, through `undefined === undefined` on its absent monthly id (`Billing.UndefinedPriceMatchesFirstPlan`).
- A signature whose UTF-8 byte length differs from the digest's makes `timingSafeEqual` throw. The result is an exception, not the 400 answer (`Webhook.LengthMismatchThrows`).
- `custom_data.user_id` is read for every event. An event without `custom_data` throws even when it is not an order (`Webhook.ReadOtherEvent`).
- The host `www.lvh.me:3000` passes through, so a user whose handle is `www` gets links that never reach their pages. The round trip also needs a non-empty handle of lower-case letters, digits, `-` and `.`: the browser lowercases upper-case hosts, and other characters are encoded or cut off. It needs company and slug segments that the URL parser keeps as written: no `?`, `#`, `%`, `/` or `\`, no characters it percent-encodes, and not `.` or `..`.
- `handleArchive` shows "Deck archived" whatever the update did. `deleteDeck` ignores the update's error, so after a failed update the archived deck is still listed under the success toast (`Dashboard.DashboardPage.HandleArchive`).

## Model

| member | source | states |
|---|---|---|
| Js.ReplaceFirst | proxy.js:16 | `replace` with a string pattern rewrites only the first occurrence; without an occurrence the string is returned unchanged |
| Js.Interp | components/DuplicateDeckButton.js:10-11 | a template literal prints a string as itself and `null` as "null" |
| Js.Truthy | app/actions.js:53 | JavaScript truthiness: false, null, undefined, 0 and "" are falsy, everything else truthy; a truthy value is never null or undefined |
| Js.OrElse | app/actions.js:53 | `a \|\| b` on strings yields `a` exactly when it is a non-empty string, otherwise `b` |
| Js.NatToStringInjective | app/actions.js:24 | distinct timestamps print as distinct decimal strings |
| Js.NatToString | app/actions.js:24 | the decimal numeral of a natural: at least one digit, all digits, no leading zero except for 0 |
| Js.Utf8Length | app/api/webhook/lemonsqueezy/route.js:12-13 | the byte length of `Buffer.from(s, "utf8")` is at least the character count, with equality exactly for ASCII text |
| Js.Prop | app/api/webhook/lemonsqueezy/route.js:20-21 | a property read throws exactly on null or undefined, and otherwise yields the property |
| Js.IntToString | app/api/webhook/lemonsqueezy/route.js:29 | `toString()` of an integer is its decimal numeral, with a leading `-` exactly for negatives |
| Js.IntToStringInjective | app/api/webhook/lemonsqueezy/route.js:29 | distinct variant ids give distinct stored price ids |
| Js.GetOpt | components/StudioRenderer.js:28 | optional chaining yields undefined on null and undefined, and the property otherwise |
| Seqs.Filter | app/dashboard/page.js:29-30 | an `.eq`/`.is` filter keeps only matching rows, every matching row, and no more rows than the table holds |
| Seqs.FilterCount | app/dashboard/page.js:29-30 | the filter keeps each matching row exactly as often as the table holds it and drops every other row |
| Seqs.FilterAppend | app/dashboard/page.js:29-30 | the filter keeps the table's order: filtering two runs of rows one after the other gives the two filtered runs in that order |
| Seqs.SortDesc | app/dashboard/page.js:31 | `order(created_at desc)` returns a permutation of the rows sorted newest first |
| Proxy.Subdomain | proxy.js:16 | the strip leaves a host without `.lvh.me:3000` unchanged and otherwise removes exactly 12 characters |
| Proxy.Route | proxy.js:7-28 | a request is rewritten iff the host is not the root, not `www.` root, not the bare suffix, and contains `.lvh.me:3000`; a rewrite starts with `/user/` and ends with the pathname |
| Proxy.StripFirstOccurrence | proxy.js:16 | when the first occurrence of the suffix follows `a`, stripping `{a}.lvh.me:3000{b}` gives `a + b` |
| Proxy.RewriteFirstOccurrence | proxy.js:16-24 | `{a}.lvh.me:3000{b}`, with no suffix inside `a`, rewrites to `/user/{a}{b}{pathname}` |
| Proxy.SubdomainRewrite | proxy.js:16-24 | a host `{sub}.lvh.me:3000` (sub non-empty, not `www`) rewrites to `/user/{sub}{pathname}` |
| Proxy.UnrelatedHostPassesThrough | proxy.js:16-27 | a host that does not contain `.lvh.me:3000` passes through |
| Proxy.RootHostsPassThrough | proxy.js:10-14 | `lvh.me:3000` and `www.lvh.me:3000` pass through |
| Proxy.BareSuffixPassesThrough | proxy.js:16-18 | the host `.lvh.me:3000` strips to the empty subdomain and passes through |
| Proxy.ForeignHostsPassThrough | proxy.js:16-27 | `example.com` and `acme.lvh.me` (no port) pass through |
| Proxy.MiddleSuffixExample | proxy.js:16 | `a.lvh.me:3000.x` rewrites with subdomain `a.x` |
| Proxy.CaseKept | proxy.js:16-21 | `Acme.lvh.me:3000` rewrites to `/user/Acme...`, keeping its case |
| Proxy.DotsKept | proxy.js:16-21 | `a.b.lvh.me:3000` rewrites to `/user/a.b...` |
| Proxy.NameRun | proxy.js:4 | the length of the leading `[\w-]` run: all characters before it are in the class, the one after it is not |
| Proxy.Excluded | proxy.js:4 | the negative lookahead of the matcher on the text after the leading `/`: `api/`, `_next/static`, `_next/image`, `favicon.ico` (unescaped dot) or a `[\w-]+\.\w+` name |
| Proxy.Intercepted | proxy.js:4 | the router runs exactly on paths that start with `/` and whose rest the lookahead does not exclude |
| Proxy.DeckPathIntercepted | proxy.js:4 | every `/t/{company}/{slug}` path reaches the router, whatever company and slug contain |
| Proxy.ApiRouteExcluded | proxy.js:4 | no `/api/{route}` path reaches the router |
| Proxy.FaviconExcluded | proxy.js:4 | `/favicon.ico` does not reach the router |
| Proxy.RootFileExcluded | proxy.js:4 | a dotted first segment such as `/logo.png` does not reach the router |
| Proxy.RootPathIntercepted | proxy.js:4 | `/` reaches the router |
| Proxy.NestedFileIntercepted | proxy.js:4 | a dot in a later segment (`/docs/guide.pdf`) does not keep the path from the router |
| Actions.FileExtension | app/actions.js:23 | the extension has no dot, ends the name, and follows its last dot; it is the whole name iff the name has no dot |
| Actions.ExtensionAfterLastDot | app/actions.js:23 | the extension of `{base}.{ext}` is `ext` whenever `ext` has no dot, however many dots `base` has |
| Actions.StoragePath | app/actions.js:24 | the storage path lies in the user's folder and ends with `.{ext}` |
| Actions.StoragePathsDistinct | app/actions.js:24 | two uploads by a user at different milliseconds never share a path, whatever the file names |
| Actions.HasUpload | app/actions.js:22 | a resume file came with the form and is non-empty |
| Actions.ResumePath | app/actions.js:19-24 | `resume_url` is set iff a non-empty file came with the form, and then lies in the user's folder |
| Actions.ResumeText | app/actions.js:20-41 | `resume_body` is the extracted text when a file came and extraction succeeded, and `""` otherwise |
| Actions.NewDeckRow | app/actions.js:45-54 | the inserted row: `is_public` iff the field is exactly "on"; tracking email is the alias if truthy, else the user's email; the cover letter is wrapped; the row is not deleted |
| Actions.SoftDelete | app/actions.js:66-70 | exactly the rows matching both id and owner get `deleted_at`; every other row is unchanged |
| Actions.DeckStore.CreateDeck | app/actions.js:10-59 | no user → "Unauthorized" and no change; failed upload → "Upload failed" and no row; otherwise the uploaded object is kept and an insert error leaves the table unchanged; success appends exactly the new row |
| Actions.DeckStore.DeleteDeck | app/actions.js:61-73 | with a user and a successful update the table becomes its owner-scoped soft delete; without a user, or when the update fails (its error is ignored), nothing changes |
| Dashboard.SpaceRun | app/dashboard/page.js:101 | the length of the leading `\s` run |
| Js.IsSpace | app/dashboard/page.js:101 | the characters `\s` matches: the ECMAScript white space and line terminators |
| Dashboard.Dashify | app/dashboard/page.js:101 | `replace(/\s+/g, '-')` leaves no whitespace and never lengthens the string |
| Dashboard.DashifyIdentity | app/dashboard/page.js:101 | strings without whitespace are unchanged |
| Dashboard.DashifyIdempotent | app/dashboard/page.js:101 | applying the replacement twice equals applying it once |
| Dashboard.DashifyRun | app/dashboard/page.js:101 | a non-empty whitespace run becomes exactly one `-` |
| Dashboard.DashifyKeep | app/dashboard/page.js:101 | a character outside `\s` is copied |
| Dashboard.DashifySpaceHead | app/dashboard/page.js:101 | a whitespace run before a non-space becomes one `-` |
| Dashboard.DashifyConcat | app/dashboard/page.js:101 | the replacement works piecewise on any split that does not cut a whitespace run |
| Dashboard.HandleText | app/dashboard/page.js:100-101 | `${profile?.handle}` is the handle, "null" for a profile whose handle is null, or "undefined" before the profile is loaded |
| Dashboard.LinkPath | app/dashboard/page.js:101 | the deck path starts with `/t/` and holds no whitespace |
| Dashboard.HostSafeHasNoSuffix | app/dashboard/page.js:100-101 | a handle of host characters never contains `.lvh.me:3000`, so the router strips exactly the domain the link appended |
| Dashboard.DeckHref | app/dashboard/page.js:98-102 | a public deck links to the bare subdomain; any other deck links to host plus `/t/{C}/{S}`; the link throws iff the deck is not public and its company or slug is null |
| Dashboard.Title | app/dashboard/page.js:83 | the title is the company for non-public decks and "Main Deck" for public ones |
| Dashboard.Subtitle | app/dashboard/page.js:92 | the subtitle is "Root Subdomain" iff the deck is public, otherwise `Slug: {slug}` |
| Dashboard.LinkRoundTrip | app/dashboard/page.js:98-102 | for a non-empty handle other than `www` made of lower-case letters, digits, `-` and `.`, and company and slug segments the URL parser keeps as written, the deck link reaches the router, which rewrites its path to `/user/{handle}/t/{C}/{S}` |
| Dashboard.PublicLinkRoundTrip | app/dashboard/page.js:100 | for the same handles, a public deck's link is the bare subdomain, whose root is rewritten to `/user/{handle}/` |
| Dashboard.ListedExactlyActive | app/dashboard/page.js:26-31 | a listing holds a deck iff it is in the table, belongs to the user and is not deleted |
| Dashboard.IsActiveOf | app/dashboard/page.js:29-30 | a deck of that user whose `deleted_at` is null |
| Dashboard.ActiveDecks | app/dashboard/page.js:29-30 | the user's non-deleted decks, as the two filters keep them |
| Dashboard.DashboardPage.constructor | app/dashboard/page.js:10-13 | no decks, no profile, loading, no toasts |
| Dashboard.DashboardPage.FetchDecks | app/dashboard/page.js:16-35 | with a user: the profile, and the user's active decks newest first (empty when the query fails); loading always ends |
| Dashboard.ArchivedNotListed | app/dashboard/page.js:41-45 | after the owner-scoped soft delete of an id, a fresh listing holds no deck with that id |
| Dashboard.ActiveListed | app/dashboard/page.js:26-31 | a listing holds every active deck of the user |
| Dashboard.DashboardPage.HandleArchive | app/dashboard/page.js:41-45 | the "Deck archived" toast in every case; the table is the owner-scoped soft delete iff there is a user and the update succeeds; then the re-fetch (profile, sorted active decks or empty); after a successful update no listed deck has the archived id, after a failed one every active deck is still listed |
| DuplicateDeck.InitialCoverLetter | components/DuplicateDeckButton.js:12 | the cover letter is non-empty iff the wrapper and a non-empty content exist, and is then that content |
| DuplicateDeck.InitialForm | components/DuplicateDeckButton.js:9-13 | company ends with " (Copy)" and slug with "-copy", and stripping the suffix gives the original text back |
| DuplicateDeck.InitialFormInjective | components/DuplicateDeckButton.js:10-11 | equal initial forms come from decks with equal company and slug text |
| DuplicateDeck.DuplicateDialog.constructor | components/DuplicateDeckButton.js:7-13 | the dialog starts closed and idle, with the initial form |
| DuplicateDeck.DuplicateDialog.Open | components/DuplicateDeckButton.js:29 | opening changes nothing else |
| DuplicateDeck.DuplicateDialog.Cancel | components/DuplicateDeckButton.js:78 | cancel closes without resetting the form |
| DuplicateDeck.DuplicateDialog.EditCompany | components/DuplicateDeckButton.js:46 | only the company changes |
| DuplicateDeck.DuplicateDialog.EditSlug | components/DuplicateDeckButton.js:55 | only the slug changes |
| DuplicateDeck.DuplicateDialog.EditCoverLetter | components/DuplicateDeckButton.js:64 | only the cover letter changes |
| DuplicateDeck.DuplicateDialog.StartDuplicate | components/DuplicateDeckButton.js:15-17 | loading is set, and the call sends the deck id and the current form |
| DuplicateDeck.DuplicateDialog.FinishDuplicate | components/DuplicateDeckButton.js:17-23 | a resolved call stops loading; success closes and notifies iff `onComplete` exists; failure keeps it open; a rejection changes nothing |
| DuplicateDeck.DuplicateDialog.HandleDuplicate | components/DuplicateDeckButton.js:15-24 | after the handler, loading iff the call rejected; open iff it was open and the call did not succeed; notified iff success with `onComplete` |
| Billing.Plans | config.js:12-48 | two plans, each with a string variant id and undefined monthly and yearly ids; the two variant ids differ |
| Billing.PriceIdOf | app/dashboard/billing/page.js:43 | `profile?.price_id` is undefined iff there is no profile, and null iff the column is empty |
| Billing.FindPlan | app/dashboard/billing/page.js:42-44 | `find` returns the first plan any of whose three ids strictly equals the price id, or none if no plan matches |
| Billing.HasAccess | app/dashboard/billing/page.js:54-57 | `profile?.has_access` is truthy |
| Billing.Matches | app/dashboard/billing/page.js:43 | one of the plan's three ids strictly equals the price id |
| Billing.UndefinedPriceMatchesFirstPlan | app/dashboard/billing/page.js:42-44 | with no profile, the undefined price id matches the first plan ("Starter") |
| Billing.NullPriceMatchesNoPlan | app/dashboard/billing/page.js:42-44 | a null price id matches no plan |
| Billing.StoredPriceFindsItsPlan | app/dashboard/billing/page.js:42-44 | a stored price id finds a plan iff it is some plan's variant id, and then that plan |
| Billing.FoundPlanIsCurrent | app/dashboard/billing/page.js:98 | the plan found for a profile is marked current; with no profile no plan is current |
| Billing.IsCurrent | app/dashboard/billing/page.js:98 | a plan is current when a profile exists and its price id equals the plan's variant id |
| Billing.AtMostOneCurrent | app/dashboard/billing/page.js:98 | at most one plan is marked current |
| Billing.HeaderTitle | app/dashboard/billing/page.js:54 | "Free Tier" iff no access; otherwise the found plan's name, or "Active Plan" when none is found |
| Billing.HeaderDetail | app/dashboard/billing/page.js:57 | "Full Access Enabled" iff access, otherwise "Limited Access" |
| Billing.HeaderForPayingUser | app/dashboard/billing/page.js:54 | a paying user whose price id is a plan's variant id sees that plan's name |
| Billing.ButtonLabel | app/dashboard/billing/page.js:122-131 | "Current Plan" iff the plan is current, otherwise "Upgrade Access" |
| Billing.DisplayPrice | app/dashboard/billing/page.js:106-107 | monthly shows the price per "mo"; yearly shows ten times the price per "yr" |
| Billing.YearlyIsTenMonths | app/dashboard/billing/page.js:106 | for the configured plans (79 and 99) the yearly amount is ten monthly amounts |
| Billing.BillingPage.constructor | app/dashboard/billing/page.js:9-11 | no profile, monthly cycle, loading |
| Billing.BillingPage.LoadProfile | app/dashboard/billing/page.js:15-26 | with a user the profile row is loaded (none when missing); loading ends in every case |
| Billing.BillingPage.SetCycle | app/dashboard/billing/page.js:78-81 | the toggle sets exactly the clicked cycle |
| Billing.BillingPage.ClickPlan | app/dashboard/billing/page.js:30-37 | a current plan's disabled button posts nothing; any other posts its variant id; the page redirects only to a truthy `url` of a successful reply |
| Webhook.SignatureMatches | app/api/webhook/lemonsqueezy/route.js:12-15 | the comparison throws iff the byte lengths differ, and accepts iff the signature equals the digest |
| Webhook.ReadEvent | app/api/webhook/lemonsqueezy/route.js:19-29 | the reads succeed iff `meta` and `custom_data` are non-null and, for an order, `data.attributes` and `variant_id` are non-null; an order iff `event_name` is "order_created", carrying `custom_data.user_id` and `variant_id.toString()` |
| Webhook.ReadOrderPayload | app/api/webhook/lemonsqueezy/route.js:20-29 | an order payload reads back as that user's order with the variant id in decimal |
| Webhook.ReadOtherEvent | app/api/webhook/lemonsqueezy/route.js:20-24 | another event with `custom_data` reads as a non-order; without `custom_data` it throws |
| Webhook.ApplyOrder | app/api/webhook/lemonsqueezy/route.js:25-31 | the named profile gets access and the price id; every other profile is unchanged; no row is added |
| Webhook.ApplyOrderIdempotent | app/api/webhook/lemonsqueezy/route.js:25-31 | replaying an order leaves the table as the first delivery left it |
| Webhook.Verdict | app/api/webhook/lemonsqueezy/route.js:6-36 | `{received: true}` iff the signature equals the digest and the payload parses and reads, whatever the event; 400 iff lengths match but bytes differ |
| Webhook.SignedOrderAccepted | app/api/webhook/lemonsqueezy/route.js:11-36 | a correctly signed order payload is accepted |
| Webhook.LengthMismatchThrows | app/api/webhook/lemonsqueezy/route.js:12-15 | a signature of a different byte length ends in an exception, not the 400 |
| Webhook.StoredPriceMatchesNoConfiguredPlan | app/api/webhook/lemonsqueezy/route.js:29 | the decimal price id the webhook stores matches none of the configured plans |
| Webhook.ProfileTable.Post | app/api/webhook/lemonsqueezy/route.js:6-37 | the response is the verdict; only an accepted order whose update succeeds changes the table, by the entitlement update |
| StudioRenderer.HeroTitle | components/StudioRenderer.js:14 | the title if truthy, else "Identity" |
| StudioRenderer.HeroSubtitle | components/StudioRenderer.js:17 | the subtitle if truthy, else "Professional Profile" |
| StudioRenderer.Renderable | components/StudioRenderer.js:14-17 | React renders any value but a plain object as a child; an array renders its elements |
| StudioRenderer.ItemRenders | components/StudioRenderer.js:43-101 | a mapped item is read through, so it must be non-null, and each field shown as text must be renderable |
| StudioRenderer.MapEach | components/StudioRenderer.js:43-53 | the `.map` callback over the items succeeds iff every item renders, and then keeps them all in order |
| StudioRenderer.MapItems | components/StudioRenderer.js:43-88 | `list?.map(...)`: nothing for a null list; a throw for a non-array list or an item that does not render |
| StudioRenderer.ContentRenders | components/StudioRenderer.js:11-88 | the hero renders iff its title and subtitle are renderable; a list section iff its list maps |
| StudioRenderer.SnapshotJobs | components/StudioRenderer.js:97-101 | at most the first three experience entries, in order; none without experience; a throw iff experience is not an array or one of the first three entries is null or has a role, company or dates React cannot render |
| StudioRenderer.SnapshotSkills | components/StudioRenderer.js:107-111 | all skills; none without skills; a throw iff skills is not an array or holds a skill React cannot render (an object) |
| StudioRenderer.RenderSnapshot | components/StudioRenderer.js:90-117 | null iff there is no resume data; otherwise the truncated jobs and all skills |
| StudioRenderer.RenderSection | components/StudioRenderer.js:123-131 | an unknown type renders null; `resume_snapshot` renders the snapshot of the resume data; a content kind renders iff its content is non-null and its component renders it; a null section throws |
| StudioRenderer.ContentKindsRender | components/StudioRenderer.js:124-128 | a content-kind section renders iff its component renders the content, and then its own component, never null |
| StudioRenderer.ListSectionThrows | components/StudioRenderer.js:43-88 | a gallery, links or testimonials section throws when its list is a non-array value or holds a null item |
| StudioRenderer.ObjectTitleThrows | components/StudioRenderer.js:14-17 | a hero whose title or subtitle is an object throws |
| StudioRenderer.SnapshotIgnoresContent | components/StudioRenderer.js:129 | two snapshot sections render the same whatever their content |
| StudioRenderer.RenderAll | components/StudioRenderer.js:123-132 | one output per section, in order; the render throws iff some section throws |
| StudioRenderer.RenderStudio | components/StudioRenderer.js:119-123 | nothing iff `config?.sections` is falsy; otherwise the per-section render of the array |
| StudioRenderer.SignedUrlOf | components/StudioRenderer.js:31-33 | an image gets a URL only if it has a path and the signing yields a truthy URL |
| StudioRenderer.SignedUrls | components/StudioRenderer.js:28-36 | the loop fails iff some image is null or undefined |
| StudioRenderer.SignedUrlsSound | components/StudioRenderer.js:30-35 | every entry of the URL map comes from an image with that id, a path and that signed URL |
| StudioRenderer.SignedUrlsComplete | components/StudioRenderer.js:30-35 | every image whose signing succeeded has an entry under its id |
| StudioRenderer.SignedUrlsNoneExtends | components/StudioRenderer.js:30-31 | once an image throws, the whole loop throws |
| StudioRenderer.TileOf | components/StudioRenderer.js:45-50 | a tile shows its signed URL if present, else "Loading..." iff the image has a path, else "Empty_Slot" |
| StudioRenderer.SignedImageShowsPicture | components/StudioRenderer.js:33-46 | an image whose signing succeeded shows its picture once the links are loaded |
| StudioRenderer.GallerySection.GetLinks | components/StudioRenderer.js:27-37 | with images, the state becomes the URL map the loop builds; without images, or when an image throws, the state is kept |
| StudioRenderer.GallerySection.constructor | components/StudioRenderer.js:23 | the signed-URL map starts empty |
| Studio.ImportName | app/dashboard/studio/page.js:54 | the imported name is `name` if truthy, else "Imported Design" |
| Studio.ImportConfig | app/dashboard/studio/page.js:55 | the imported config is `config` if truthy, else the whole document |
| Studio.ImportWrappedTemplate | app/dashboard/studio/page.js:54-55 | a `{name, config}` document imports as that name and config |
| Studio.ImportBareConfig | app/dashboard/studio/page.js:54-55 | a bare config imports whole under the default name |
| Studio.ImportedRow | app/dashboard/studio/page.js:47-56 | a row is built iff the text parses to a non-null value and there is a user; it carries the user, the imported name and the imported config |
| Studio.SectionCount | app/dashboard/studio/page.js:120 | the count is the length of the sections array, and 0 when config or sections is missing |
| Studio.ListedExactlyOwn | app/dashboard/studio/page.js:21-27 | a listing holds a template iff it is in the table and belongs to the user |
| Studio.UserTemplates | app/dashboard/studio/page.js:21-27 | the templates whose owner is the user |
| Studio.RemoveById | app/dashboard/studio/page.js:134 | a hard delete drops every row with that id, whoever owns it, and keeps every other row |
| Studio.RemoveByIdCount | app/dashboard/studio/page.js:134 | every row without the id stays as often as the list held it, and no row with the id survives |
| Studio.RemoveByIdShrinks | app/dashboard/studio/page.js:134 | deleting a present id removes at least one row |
| Studio.StudioPage.FetchTemplates | app/dashboard/studio/page.js:16-33 | with a user and an answer, the user's templates newest first; otherwise the list is kept; loading always ends |
| Studio.StudioPage.constructor | app/dashboard/studio/page.js:11-13 | no templates, loading, no toasts |
| Studio.StudioPage.HandleImport | app/dashboard/studio/page.js:40-66 | no file: nothing; any failure: no row, the one "Invalid JSON configuration" toast, and list and loading unchanged; success: exactly the imported row appended, a success toast and a re-fetch |
| Studio.StudioPage.DeleteTemplate | app/dashboard/studio/page.js:132-139 | only after confirmation and without error: the table loses that id, a toast, and the re-fetched list has no template with that id; without a user or when the re-fetch fails the list is kept |
| StudioNew.PresetIdsDistinct | app/dashboard/studio/new/page.js:9-37 | the preset ids are distinct |
| StudioNew.FindPreset | app/dashboard/studio/new/page.js:52 | `find` returns an index holding that id, or none when no preset has it |
| StudioNew.FindPresetFirst | app/dashboard/studio/new/page.js:52 | no preset before the returned index has that id, so `find` returns the first match |
| StudioNew.FindEachPreset | app/dashboard/studio/new/page.js:52 | looking up a preset's id finds that preset |
| StudioNew.DefaultPresetIsBlank | app/dashboard/studio/new/page.js:44 | the default selection is the "empty" preset, which has no sections |
| StudioNew.SubmittedConfig | app/dashboard/studio/new/page.js:55 | the submitted config's `sections` is exactly the preset's section list |
| StudioNew.PresetsShaped | app/dashboard/studio/new/page.js:21-34 | every preset section has exactly a dispatched `type` and a `content`: string hero title and subtitle, empty lists for the list sections |
| StudioNew.ShapedSectionRenders | app/dashboard/studio/new/page.js:21-34 | a section of that shape renders its component (never null), or the resume snapshot when it is one |
| StudioNew.PresetSectionsRender | app/dashboard/studio/new/page.js:21-34 | every preset section has a type the renderer dispatches; content sections never render null |
| StudioNew.CreatedTemplateRenders | app/dashboard/studio/new/page.js:52-55 | a template created from a preset renders one node per section (null exactly for snapshots without resume data), and the studio counts its sections |
| StudioNew.NewTemplatePage.constructor | app/dashboard/studio/new/page.js:43-44 | not loading, with "empty" selected |
| StudioNew.NewTemplatePage.SelectPreset | app/dashboard/studio/new/page.js:113 | a card click selects exactly that preset's id |
| StudioNew.NewTemplatePage.HandleSubmit | app/dashboard/studio/new/page.js:47-70 | outcome by case: a throw toasts a failure; an error result toasts its message without navigating; otherwise success and navigation to the new id; a nullish result throws after the success toast. Loading is off in every case |

## Left out

- URL parsing and `NextResponse`: the rewrite target is the internal path string. The `Host` header is taken as given (no lowercasing or port normalisation). A missing header is outside the model, since proxy.js:16 dereferences it.
- The record store is modelled as in-memory tables. Left out:
  - its SDK;
  - row-level security;
  - `.single()` errors on duplicate rows;
  - the order among rows with equal `created_at`.
  The listing is specified as "sorted and a permutation".
- HMAC-SHA256 and `timingSafeEqual`'s constant-time behaviour: the digest is an uninterpreted function. Byte equality of two UTF-8 encodings is taken as string equality.
- `Date.now()`, `toISOString()`, `revalidatePath`, toasts' timing and React effect scheduling: every handler is one sequential step, and asynchronous interleavings are not modelled.
- PDF text extraction and storage upload are parameters. `data.text` of the parser is taken to be a string.
- The `duplicateDeck` and `createTemplate` server actions are not part of this model; only their outcomes enter, as parameters.
- Floating point: prices are whole dollars, so `Math.floor(price * 10)` is `10 * price`. NaN and `-0` are not among the modelled JSON numbers, which are integers.
- `JSON.stringify` of the submitted config: the config is kept as a value.
- The inner markup of the links, testimonials and gallery sections and of the snapshot items: their nodes keep the content value. What makes those sections throw is modelled: `.map` on a non-array, a null item, and a field React cannot render as text.
- Dashboard.LinkRoundTrip: URL parsing is not modelled. The requires exclude the handles, companies and slugs it would change, and for those the model does not say which path the router receives.
- Dashboard.DashboardPage.HandleArchive: `revalidatePath` and the separate user lookups of the server action and the page are not modelled; one user stands for both.
- Webhook.ApplyOrder: a `user_id` that is not a string matches no row, rather than following the store's type coercion in `.eq`.
- StudioRenderer.GallerySection.GetLinks: `content.images` of a type other than an array or a string (a number, an object with a `length`) is treated as "no images". A non-empty string gives an empty map.
- StudioRenderer.SignedUrls: the image id is turned into a key with `String(id)`, and the result is a plain map. An object id's own `toString` is not modelled. Neither is `urls["__proto__"] = url`, which in JavaScript sets the prototype instead of storing an own key; image ids are taken not to be `__proto__`.
- StudioRenderer.TileOf: the lookup `signedUrls[img.id]` is modelled on own keys only. Image ids are taken not to name `Object.prototype` members such as `constructor`, `toString`, `hasOwnProperty` or `__proto__`. For such an id without its own entry, JavaScript finds the inherited function and renders a picture, where the model shows "Loading..." or "Empty_Slot".
- Js.IntToString: numbers are taken to be safe integers, with |n| at most 2^53 - 1. Larger values print differently in JavaScript: rounded digits beyond 2^53 (`2**64` prints as "18446744073709552000") and exponent notation from 1e21 ("1e+21"). For such a `variant_id` the stored price id differs from the model's (`Webhook.ReadEvent`).
