# Prismui site logic, modelled in Dafny

Prismui is a marketing and documentation site for a UI component library. Its
few pieces of real logic are modelled here as pure functions over immutable
datatypes, with their properties proved:

- **The table-of-contents tracker** (`TableOfContents`). One cell,
  `activeSlug`, starts empty and is written by two event sources once the mount
  effect has attached them. An intersection-observer batch is processed entry by
  entry, and the last qualifying entry wins. A scroll tick keeps the headings
  whose top lies in `[0, innerHeight * 0.5]` and takes the last of them in
  document order. The cleanup detaches both sources. The tracker is
  `Step(state, event) -> state`, and rendering is the per-item test
  `activeSlug == item.slug`.
- **Repository statistics** (`RepoActivity`). `getRepoActivity` counts open
  and merged pull requests and open and closed issues. A fetch that throws, a
  response that is not `ok` or a body that does not parse gives all-zero
  counts. The `Suspense` fallback shows the same zeros.
- **The component registry** (`Registry`). The seven entries of `components`
  are checked against the schema in the file's header comment: unique names,
  type `"registry:ui"` and category `"components"`, the four install commands
  derived from the name, a main file at `components/prismui/<name>.tsx`, file
  text equal to the entry's code, and at least one dependency.
- **The docs middleware** (`Middleware`). An exact-match rule redirects
  `/docs/components` to `/docs` and passes every other path through.

`Seqs` holds the order-preserving `Filter` (JavaScript's `Array.prototype.filter`)
that the scroll handler and the counters share. `Wrappers` holds `Option`.

Where the code and its comments disagree, or where the code does something a
reader might not expect, the model follows the code:

- The comment at `table-of-contents.tsx:49` calls the chosen heading "the one
  closest to the top". The code takes the *last* in-band heading in document
  order, which is the in-band heading lowest on the screen. `HandleScroll`
  does what the code does.
- The code observes every `h2[id]`, `h3[id]` and `h4[id]` of the document,
  not only the listed sections. So the slug
  can name a heading that has no list entry, and then nothing is highlighted
  (`ActiveIffListed`).
- "Nothing is active before the first event" holds only when every list item
  has a non-empty slug, because the initial slug is `""`. `InitNoneActive`
  carries that requirement, and `EmptySlugActiveAtStart` shows an item with an
  empty slug highlighted before any event.
- If the last in-band heading has an empty `id`, the scroll tick changes
  nothing. It does not fall back to an earlier in-band heading.

## Model

| member | source | states |
|---|---|---|
| `TableOfContents.ApplyEntries` | src/components/docs/table-of-contents.tsx:23-29 | the observer callback walks the batch in order; the resulting slug is the old one or the id of a qualifying entry (non-empty id, intersecting, ratio > 0) |
| `TableOfContents.BatchIsLastQualifying` | src/components/docs/table-of-contents.tsx:24-28 | a batch has the effect of its last qualifying entry alone; a batch with no qualifying entry leaves the slug unchanged |
| `TableOfContents.HandleScroll` | src/components/docs/table-of-contents.tsx:41-54 | with no heading in the band `[0, innerHeight*0.5]` (both ends included) the slug is kept; otherwise the slug becomes the id of the last in-band heading in document order, or is kept when that id is empty; any new slug is a non-empty in-band heading id |
| `TableOfContents.LastVisibleIsLastInBand` | src/components/docs/table-of-contents.tsx:43-50 | the filtered list is empty exactly when no heading is in the band, and its last element is the document's last in-band heading |
| `TableOfContents.ScrollIdempotent` | src/components/docs/table-of-contents.tsx:41-54 | a second scroll tick with unchanged geometry gives the same slug as the first |
| `TableOfContents.ScrollOverrides` | src/components/docs/table-of-contents.tsx:50-52 | when the last in-band heading has a non-empty id, the scroll result does not depend on the previous slug, so it overrides an earlier observer write |
| `TableOfContents.Step` | src/components/docs/table-of-contents.tsx:19-62 | a detached tracker ignores observer and scroll events; teardown detaches and keeps the slug; any change of slug is to a non-empty id carried by the event (never a reset to empty) |
| `TableOfContents.RunActiveIsObserved` | src/components/docs/table-of-contents.tsx:22-56 | after any sequence of events the slug is the starting one or a non-empty id of some heading or entry that an event carried |
| `TableOfContents.InitActiveIsObserved` | src/components/docs/table-of-contents.tsx:17 | starting from the initial state, the slug is empty or the id of an observed heading |
| `TableOfContents.TeardownIsFinal` | src/components/docs/table-of-contents.tsx:58-61 | after the cleanup, and until the effect runs again, no event changes the state |
| `TableOfContents.Render` | src/components/docs/table-of-contents.tsx:71-72 | one highlight flag per item, set exactly for the items whose slug equals the active slug |
| `TableOfContents.AtMostOneActive` | src/components/docs/table-of-contents.tsx:72 | with pairwise distinct slugs, at most one item is highlighted |
| `TableOfContents.ActiveIffListed` | src/components/docs/table-of-contents.tsx:37 | some item is highlighted exactly when the active slug is the slug of a listed item; a heading outside the list highlights nothing |
| `TableOfContents.Init` | src/components/docs/table-of-contents.tsx:17 | the initial state: empty slug, no event source attached |
| `TableOfContents.EmptySlugActiveAtStart` | src/components/docs/table-of-contents.tsx:17 | an item whose slug is empty is highlighted before any event, because the initial slug is empty |
| `TableOfContents.InitNoneActive` | src/components/docs/table-of-contents.tsx:17 | before any event, no item with a non-empty slug is highlighted |
| `TableOfContents.IntroUsageScenario` | src/components/docs/table-of-contents.tsx:43-52 | `#intro` at 0 and `#usage` at 800 in a 600-high viewport activates "intro"; moving `#usage` to 100 and `#intro` to -700 activates "usage" |
| `Seqs.Filter` | src/components/docs/table-of-contents.tsx:43-46 | every element of the result is an input element that satisfies the predicate, every qualifying input element occurs in the result, and the result is never longer than the input |
| `Seqs.FilterMultiset` | src/components/docs/table-of-contents.tsx:43-46 | the filter keeps each qualifying value exactly as often as it occurs in the input, and no other value |
| `Seqs.FilterAppend` | src/components/docs/table-of-contents.tsx:43-46 | filtering a concatenation gives the concatenation of the filters, so the input order is kept |
| `Seqs.FilterCount` | src/components/sections/repo-activity.tsx:53-61 | the length of a filter is the number of input positions whose element satisfies the predicate |
| `RepoActivity.GetRepoActivity` | src/components/sections/repo-activity.tsx:16-73 | any thrown fetch, non-ok response or unparseable body gives all-zero counts; on success each counter is the number of records that qualify for it (PR state "open"; PR state "closed" with a truthy `merged_at`; issue state "open" or "closed" without `pull_request`), open+merged PRs never exceed the PR count, open+closed issues never exceed the issue count, and each counter is zero exactly when no record qualifies for it; the time stamp is the given clock value |
| `RepoActivity.PrCountsBounded` | src/components/sections/repo-activity.tsx:53-55 | no PR is both open and merged, so `openPRs + mergedPRs` never exceeds the number of PRs |
| `RepoActivity.IssueCountsBounded` | src/components/sections/repo-activity.tsx:56-61 | no issue is both open and closed, so `openIssues + closedIssues` never exceeds the number of issues |
| `RepoActivity.ClosedUnmergedIgnored` | src/components/sections/repo-activity.tsx:54-55 | a closed PR without a truthy `merged_at` changes no counter |
| `RepoActivity.PullRequestsNotCountedAsIssues` | src/components/sections/repo-activity.tsx:56-61 | appending a record that carries `pull_request` to the issues, whatever its state, leaves every reported number unchanged |
| `RepoActivity.PlainIssuesSuffice` | src/components/sections/repo-activity.tsx:56-61 | dropping every record that carries `pull_request` from the issues leaves both issue filters unchanged |
| `RepoActivity.FallbackStats` | src/components/sections/repo-activity.tsx:173-181 | the stats the loading fallback renders: four zero counters and the clock value |
| `RepoActivity.FallbackMatchesFailure` | src/components/sections/repo-activity.tsx:170-188 | the `Suspense` fallback shows all-zero stats, the same as any failed fetch |
| `Registry.WellFormedItem` | src/registry/registry-components.ts:11-48 | the schema of one entry: type "registry:ui", category "components", the npm, pnpm, yarn and bun commands derived from the name, a first file at `components/prismui/<name>.tsx`, every file of type "registry:ui" with its text (when given) equal to the code, at least one dependency |
| `Registry.WellFormedRegistry` | src/registry/registry-components.ts:11-48 | the schema of the whole list: pairwise distinct names, every entry well formed |
| `Registry.DerivedStringsInjective` | src/registry/registry-components.ts:30-39 | distinct names give distinct install commands and distinct main-file paths |
| `Registry.UniqueInstallCommands` | src/registry/registry-components.ts:13 | in a registry that meets the schema, no two entries share an install command for any package manager |
| `Registry.CommandsDerived` | src/registry/registry-components.ts:34-39 | when all four commands are the launcher followed by `prismui@latest add <name>`, every package manager's command is `InstallCommand(pm, name)` |
| `Registry.ComponentNamesUnique` | src/registry/registry-components.ts:54-993 | the seven registered names are pairwise distinct |
| `Registry.ComponentsWellFormed` | src/registry/registry-components.ts:54-993 | the registered list has seven entries and every entry meets the schema of the header comment: type "registry:ui", category "components", the npm, pnpm, yarn and bun commands derived from the name, a first file at `components/prismui/<name>.tsx`, file text equal to the code, at least one dependency |
| `Middleware.HandleRequest` | src/middleware.ts:5-11 | exactly the pathname `/docs/components` is redirected, and the redirect goes to `/docs`; every other pathname passes through |
| `Middleware.Matches` | src/middleware.ts:13-15 | the matcher accepts exactly the literal path `/docs/components` |
| `Middleware.Route` | src/middleware.ts:13-15 | running the middleware only for paths the matcher accepts gives the same outcome as running it on every path |
| `Middleware.ExactMatchOnly` | src/middleware.ts:7 | a longer path such as `/docs/components/card` is not redirected |
| `Middleware.RedirectTerminates` | src/middleware.ts:7-9 | the redirect target `/docs` passes through, so a redirect is followed at most once |

## Left out

- Browser geometry: the observer's `rootMargin` and `threshold` options and the band computation they imply belong to the browser. Entries arrive as given values.
- Heading positions and the viewport height are exact `real` numbers. The code only compares them and halves the height, so floating-point rounding is not modelled.
- React scheduling, effect ordering and re-rendering are modelled as a sequence of `Step` calls. State updates are applied at once, not batched.
- The `framer-motion` indicator, the links and all styling are not modelled.
- `fetch`, the GitHub endpoints, the OAuth header, `revalidate` caching and JSON parsing are not modelled. Each fetch is an abstract `Fetch` outcome. A JSON value that is not an array, or is malformed, is `Malformed`.
- `new Date().toISOString()` is the parameter `now`.
- `pull_request` is modelled as present or absent. An object is always truthy, so its contents do not matter.
- `RepoActivity.GetRepoActivity`: a record whose `state` is not a string is modelled as a state string other than "open" and "closed", which matches no counter.
- `RepoActivity.GetRepoActivity`: the rejection of `Promise.all` is modelled as either fetch throwing. Which of the two threw first makes no difference to the result.
- The component source strings in the registry are placeholders. Where an entry repeats its code as a file's `content`, the source repeats the identical literal, and the model uses one constant for both.
- The `subcategory` field is recorded but not validated, because the schema leaves its set of values open.
- Only the target path of `NextResponse.redirect` is modelled. URL resolution against `request.url` is not.
- The framework's matcher is modelled as exact equality with `/docs/components`.
- src/components/section-preview.tsx is not part of this model. It wraps a foreign formatting pipeline and UI tabs.
- src/config/docs.ts and src/app/page.tsx are not part of this model. They hold static navigation data and page composition with no logic.
