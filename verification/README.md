# Storefront decision logic, modelled in Dafny

This project models the repository's own decision code in a Next.js
storefront. The code that is modelled sits around calls into Firebase,
Stripe and the Next.js router. The calls themselves are abstracted: every
SDK result, file-system outcome (the firebase.json write of the deploy
script included), clock reading and router outcome is an input, and every timer is an explicit event. The project has one module per
component:

- `NavigationGuard` and `SmartNavigation`: the two navigation hooks as
  discrete-event state machines. Calls, router outcomes, timer firings and
  route events are events; router calls, scheduled timers and re-thrown
  errors are effects.
- `FirebaseErrors`, `HealthChecker` and `Retry`: the connection health
  checker, its error classifiers, the retry loop and the recovery attempt.
- `ErrorRecovery` and `LoginForm`: error-text classification and the
  guards of the recovery button and the login form.
- `Slug`, `ProductForm` and `CategoryForm`: slug generation, the name-blur
  rule and the two admin submit handlers.
- `Cart` and `Shop`: the cart's list operations and the shop's view
  decisions. Prices are integer cents.
- `EnvCheck`, `DotEnv`, `DeployConfig` and `Deploy`: the `.env.local`
  parser, the required-variable checks, the environment table and the
  deploy script's step order.
- `AdminLogin` and `AuthServer`: the admin login endpoint's status ladder
  and the admin-page guard.
- `RouterRewrite`, `SourceScan` and `FixScript`: the router-import fixer's
  three regular-expression rewrites, its directory walk, and its driver.
- `Options` and `Strings`: shared helpers. They include JavaScript's
  `includes`, `startsWith`, `endsWith`, `trim`, `split` and `join`, and its
  white-space class.

Some definitions compute source behaviour and carry no row below; the
lemmas in the table state what they do:
- `FirebaseErrors.IsBlockedByClient` is `isBlockedByClient`
  (src/lib/firebaseHealth.ts:64-77), and `FirebaseErrors.IsRetryableError`
  is `isRetryableError` (lines 136-149 of the same file).
- `NavigationGuard.Step` and `NavigationGuard.Run` are
  `useNavigationGuard` (src/hooks/useNavigationGuard.ts:11-190), driven by
  one event and by a list of events.
- `SmartNavigation.Step` and `SmartNavigation.Run` are `useSmartNavigation`
  (src/hooks/useSmartNavigation.ts:9-72), in the same way.
- `Cart.Total` is the `reduce` of src/pages/cart.tsx:86-89.
- `DotEnv.ParseLine` is the `forEach` body of scripts/deploy.js:100-105.
- `SourceScan.FindFiles` is `findFiles` (scripts/fix-router-imports.js:42-62).
- `RouterRewrite.Rewrite` is the three `replace` calls of
  scripts/fix-router-imports.js:75-90.
- `Deploy.RunSmokeTests` is `runSmokeTests` (scripts/deploy.js:243-257).
- `Deploy.VercelStep` is the optional Vercel step of scripts/deploy.js:302-308.
- `DeployConfig.GetEnvironmentConfig`, `GetFirebaseConfig`, `GetVercelConfig`,
  `GetFeatureFlags` and `ValidateEnvironmentConfig` are the accessors of
  deployment.config.js:101-163. `DeployConfig.BuiltInsValid`,
  `UnknownNameIsDevelopment`, `PrototypeNameHasNoEntry`,
  `FlagsByEnvironment`, `ProjectIdSource` and `HostingByEnvironment` state
  what they return.

## Model

| member | source | states |
|---|---|---|
| NavigationGuard.Call | src/hooks/useNavigationGuard.ts:11-38 | while navigating, a call only overwrites the single pending slot and calls nothing; when idle it sets the flag, replaces the fallback timer by one armed by the same entry point, and calls the router once |
| NavigationGuard.RouterCalls | src/hooks/useNavigationGuard.ts:38 | an effect is in the filtered list exactly when it is a router call among the effects |
| NavigationGuard.RouterCallsAppend | src/hooks/useNavigationGuard.ts:38 | the filter keeps order and multiplicity: the router calls of a joined trace are those of its parts, joined |
| NavigationGuard.RouterCallsSingle | src/hooks/useNavigationGuard.ts:38 | one effect is kept exactly when it is a router call |
| NavigationGuard.StepCallsRouterAtMostOnce | src/hooks/useNavigationGuard.ts:11-56 | no event produces more than one router call; an event that calls the router leaves the flag set and a fallback armed by the same entry point |
| NavigationGuard.QueueWhileNavigating | src/hooks/useNavigationGuard.ts:12-16 | while navigating, `navigateTo`/`replaceTo` overwrite the pending slot and produce no effect |
| NavigationGuard.QueuedCallsKeepLast | src/hooks/useNavigationGuard.ts:59-63 | any sequence of calls made while navigating leaves only the last path pending, calls nothing, and changes nothing else |
| NavigationGuard.IdleCallStartsAttempt | src/hooks/useNavigationGuard.ts:18-38 | from idle, the flag is set and the fallback armed in the state that accompanies the router call, and the pending slot is untouched |
| NavigationGuard.FallbackReissuesPendingOnce | src/hooks/useNavigationGuard.ts:27-36 | the fallback clears the flag; with a path pending it empties the slot and re-issues that path exactly once, through the entry point that armed it |
| NavigationGuard.RejectionHandling | src/hooks/useNavigationGuard.ts:43-54 | a "Route Cancelled" rejection changes nothing and schedules a 100 ms retry, which clears the flag and calls the router again with the same path; any other rejection clears the flag and is re-thrown |
| NavigationGuard.BackBehaviour | src/hooks/useNavigationGuard.ts:103-123 | `back` while navigating changes nothing, the pending slot included; otherwise it sets the flag, calls the router and schedules the 500 ms reset, which clears the flag and keeps the pending slot |
| NavigationGuard.RouteEvents | src/hooks/useNavigationGuard.ts:134-155 | `routeChangeComplete` clears the flag and hands a pending path to `navigateTo` 100 ms later, emptying the slot; `routeChangeError` only clears the flag |
| NavigationGuard.ResetClearsAll | src/hooks/useNavigationGuard.ts:184-190 | `resetNavigation` leaves the guard idle, with nothing pending and no timer, from any state |
| NavigationGuard.UnmountCancelsTimer | src/hooks/useNavigationGuard.ts:161-175 | after unmounting no fallback timer is armed and route events change nothing |
| NavigationGuard.ReplaceQueuedDrainsAsPush | src/hooks/useNavigationGuard.ts:134-143 | a path queued through `replaceTo` and drained by `routeChangeComplete` is pushed, not replaced |
| NavigationGuard.SupersededCallRunsOnce | src/hooks/useNavigationGuard.ts:11-56 | for two quick calls, the first path is pushed once, the second waits and is pushed after the route change completes, and a later fallback re-issues nothing |
| NavigationGuard.IdleWithPendingReachable | src/hooks/useNavigationGuard.ts:145-155 | a route error clears the flag but keeps the pending path, so the guard can be idle with a path queued |
| NavigationGuard.BusyUntilCleared | src/hooks/useNavigationGuard.ts:11-155 | once navigating, no event reaches the router and the flag stays set until a fallback, rejection, retry, reset timer, route completion or error, or `resetNavigation` arrives |
| NavigationGuard.FallbackOverlapsInFlightCall | src/hooks/useNavigationGuard.ts:27-36 | the fallback fires whether or not the first push settled: `/a` and then `/b` are pushed with no resolution in between |
| SmartNavigation.Interactions | src/hooks/useSmartNavigation.ts:28 | the count is zero exactly when no effect hands control to the router |
| SmartNavigation.BusyDropsRequests | src/hooks/useSmartNavigation.ts:10-13 | while navigating, push, replace and back requests change nothing and queue nothing |
| SmartNavigation.AcceptedCallArmsTimer | src/hooks/useSmartNavigation.ts:15-28 | an accepted push or replace sets the flag, arms a fresh timer and calls the router once; when the timer fires the hook is idle again |
| SmartNavigation.RejectionIsSwallowed | src/hooks/useSmartNavigation.ts:29-32 | a router rejection clears the flag and is never passed on |
| SmartNavigation.BackBehaviour | src/hooks/useSmartNavigation.ts:59-72 | an accepted `back` sets the flag, calls the router and schedules the 500 ms reset; a throwing `router.back()` leaves the flag set, with no reset scheduled |
| SmartNavigation.OneInteractionUntilCleared | src/hooks/useSmartNavigation.ts:9-72 | until something clears the flag, at most one request reaches the router, and none does if a navigation was already under way |
| SmartNavigation.NoRethrowWithoutThrowingBack | src/hooks/useSmartNavigation.ts:29-32 | when `router.back()` does not throw, no trace surfaces an error |
| FirebaseErrors.HandleFirebaseError | src/lib/firebaseHealth.ts:186-216 | the markers are tried in order: blocked, then route-cancelled, then opener policy, each giving its own text; without them, each of the four auth codes gives its own text; otherwise the message, or the default when the message is empty; the text is never empty and is always the message or one of the fixed texts |
| FirebaseErrors.NetMarkerImpliesBareMarker | src/lib/firebaseHealth.ts:69-70 | a message holding the "net::" marker also holds the bare marker, so the second test is redundant |
| FirebaseErrors.OpenerPolicyRetryableNotBlocked | src/lib/firebaseHealth.ts:136-149 | an opener-policy failure is retried but does not count as a blocked connection under `isBlockedByClient` (lines 64-77) |
| FirebaseErrors.NetworkErrorBlockedNotRetryable | src/lib/firebaseHealth.ts:64-77 | an `ERR_NETWORK` failure counts as blocked but is not retried by `isRetryableError` (lines 136-149) |
| FirebaseErrors.RetryableMessagesGetFixedText | src/lib/firebaseHealth.ts:136-197 | every failure retried because of its message is shown with one of the three marker texts, never the raw message |
| FirebaseErrors.AuthCodeTexts | src/lib/firebaseHealth.ts:199-213 | without a message marker, each of the four auth codes gets its own text |
| FirebaseErrors.NotBlockedWithoutMarkers | src/lib/firebaseHealth.ts:64-77 | a message holding none of the blocked, network and route-cancelled markers, with no code, is not a blocked connection |
| HealthChecker.CheckHealth | src/lib/firebaseHealth.ts:23-60 | inside the 30000 ms window nothing changes and the stored flag is returned; otherwise the probe runs and stamps the time; a success resets the counter; a blocked failure adds one and turns the flag off only at 3; any other failure adds one and turns the flag off at once |
| HealthChecker.ForceCheck | src/lib/firebaseHealth.ts:89-92 | with the last check time reset, the probe runs exactly when the clock reads at least the interval |
| HealthChecker.ResetFailures | src/lib/firebaseHealth.ts:95-98 | healthy with no failures, the last check time kept |
| HealthChecker.CheckKeepsValid | src/lib/firebaseHealth.ts:36-56 | checks keep the invariant: no failures implies healthy, and healthy implies fewer than 3 failures |
| HealthChecker.OtherFailureIsImmediate | src/lib/firebaseHealth.ts:52-56 | a probed failure that is not a blocked connection reports unhealthy whatever came before |
| HealthChecker.BlockedFailuresHysteresis | src/lib/firebaseHealth.ts:44-51 | after n spaced blocked failures the counter has grown by n, and the checker is healthy exactly while the counter is below 3 |
| HealthChecker.SuccessRestores | src/lib/firebaseHealth.ts:36-39 | a probed success after any history gives healthy, zero failures, and the current time |
| HealthChecker.AttemptConnectionRecovery | src/lib/firebaseHealth.ts:241-260 | the value returned is the checker's final health flag |
| HealthChecker.RecoveryOutcome | src/lib/firebaseHealth.ts:241-255 | with real clock readings, recovery fails exactly when the first check leaves the checker unhealthy and the second probe fails with something other than a blocked connection |
| HealthChecker.RecoveryKeepsValid | src/lib/firebaseHealth.ts:241-255 | a recovery attempt keeps the checker's invariant |
| Retry.WithRetry | src/lib/firebaseHealth.ts:102-133 | at most `maxRetries` invocations; every invocation but the last failed retryably; a success is returned; a thrown error is the last invocation's and is either non-retryable or the last allowed; `maxRetries < 1` runs nothing; the waits double from `baseDelay` |
| Retry.BackoffNonDecreasing | src/lib/firebaseHealth.ts:121 | with a non-negative base delay, later waits are never shorter |
| ErrorRecovery.GetErrorType | src/components/ui/ErrorRecovery.tsx:33-47 | security when a security marker occurs; else navigation; else connection; else general, each as an if-and-only-if |
| ErrorRecovery.SecurityDominates | src/components/ui/ErrorRecovery.tsx:34-39 | a text mentioning a security marker is classed security whatever text is joined before or after it |
| ErrorRecovery.NavigationOverConnection | src/components/ui/ErrorRecovery.tsx:40-45 | a navigation text joined with text free of security markers stays navigation, whatever connection words it holds |
| ErrorRecovery.MarkersClassify | src/components/ui/ErrorRecovery.tsx:37-41 | "navigation" alone is a navigation error and "browser security" alone is a security error |
| ErrorRecovery.CapitalNavigationIsGeneral | src/components/ui/ErrorRecovery.tsx:40 | matching is case-sensitive: "Navigation" is a general error |
| ErrorRecovery.CapitalBrowserSecurityIsGeneral | src/components/ui/ErrorRecovery.tsx:37 | matching is case-sensitive: "Browser security" is a general error |
| ErrorRecovery.GetSolutions | src/components/ui/ErrorRecovery.tsx:49-80 | four distinct, non-empty pieces of advice for every kind |
| ErrorRecovery.SolutionsDistinguishKinds | src/components/ui/ErrorRecovery.tsx:49-80 | different kinds get different advice |
| ErrorRecovery.Heading | src/components/ui/ErrorRecovery.tsx:93-98 | every kind has a non-empty heading |
| ErrorRecovery.HeadingInjective | src/components/ui/ErrorRecovery.tsx:93-98 | no two kinds share a heading |
| ErrorRecovery.UiStep | src/components/ui/ErrorRecovery.tsx:16-31 | a click while recovering does nothing; a recovery starts exactly on a click while idle; the flag is cleared whenever an attempt settles; `onRecover` runs exactly on a successful attempt with the callback supplied |
| ErrorRecovery.NoReentrantRecovery | src/components/ui/ErrorRecovery.tsx:17-19 | until the attempt settles, no number of clicks starts a second recovery |
| ErrorRecovery.Render | src/components/ui/ErrorRecovery.tsx:93-154 | the recovery button appears exactly when `onRecover` is supplied and is disabled while recovering; the quick-fix box appears exactly with the solutions shown for a security error |
| ErrorRecovery.RecoveringButton | src/components/ui/ErrorRecovery.tsx:111-119 | while recovering, the button says "Recovering..." and is disabled |
| LoginForm.LoginErrorMessage | src/components/auth/LoginForm.tsx:55-65 | the opener-policy text, then the blocked text, then the message itself; a thrown non-`Error` gets "Invalid email or password" |
| LoginForm.OpenerPolicyBeforeBlocked | src/components/auth/LoginForm.tsx:56-59 | a message carrying both markers gets the opener-policy text |
| LoginForm.VerbatimMessage | src/components/auth/LoginForm.tsx:61-62 | a message is shown as it is exactly when it carries neither marker, or is one of the two fixed texts |
| LoginForm.HandleSubmit | src/components/auth/LoginForm.tsx:36-69 | while submitting or navigating, nothing happens; otherwise the sign-in is called first, `replaceTo("/")` is called exactly when the sign-in succeeded, and the submitting flag is false afterwards |
| LoginForm.FailedSubmitShowsMessage | src/components/auth/LoginForm.tsx:51-65 | a failed sign-in or a failed redirect shows the text chosen for what was thrown |
| LoginForm.RedirectEffect | src/components/auth/LoginForm.tsx:16-20 | `replaceTo("/")` is requested exactly when a user is known, loading is over and no navigation runs |
| LoginForm.RedirectOnlyWhenHidden | src/components/auth/LoginForm.tsx:16-34 | whenever the redirect fires, the form renders nothing |
| LoginForm.Render | src/components/auth/LoginForm.tsx:23-34 | the form fields are shown exactly when no user is known and loading is over |
| Slug.GenerateSlug | src/pages/admin/products/new.tsx:78-83 | the slug is no longer than the name and holds only lower-case letters, digits, `_` and `-` |
| Slug.StripPunctuation | src/pages/admin/products/new.tsx:81 | the result is no longer than its input and keeps only word characters and white space drawn from it; text made only of those is kept unchanged |
| Slug.StripPunctuationAppend | src/pages/admin/products/new.tsx:81 | stripping distributes over concatenation, so every character is judged where it stands |
| Slug.StripPunctuationChar | src/pages/admin/products/new.tsx:81 | one character is kept exactly when it is a word character or white space |
| Slug.SlugSplitsAtRun | src/pages/admin/products/new.tsx:78-83 | a run of white space between a word character ending one part of the name and one starting the next becomes exactly one hyphen between the two parts' slugs |
| Slug.CollapseSpaces | src/pages/admin/products/new.tsx:82 | the result is no longer than its input and holds no white space: each character is a hyphen or a non-space character of the input |
| Slug.CollapseSplitsAtRun | src/pages/admin/products/new.tsx:82 | a maximal run of white space between two pieces of text becomes exactly one hyphen between their collapses |
| Slug.CollapseAppend | src/pages/admin/products/new.tsx:82 | collapsing distributes over any cut that does not fall inside a run of white space |
| Slug.CollapseRun | src/pages/admin/products/new.tsx:82 | a whole run of white space becomes one hyphen in front of the collapse of what follows it |
| Slug.CollapseWithoutSpaces | src/pages/admin/products/new.tsx:82 | text without white space is left unchanged |
| Slug.SlugContent | src/pages/admin/products/new.tsx:78-83 | with its hyphens removed, the slug is exactly the word characters of the lower-cased name, in order |
| Slug.SlugHasNoDoubleHyphen | src/pages/admin/products/new.tsx:81-82 | a slug never holds two hyphens in a row |
| Slug.LeadingSpaceGivesHyphen | src/pages/admin/products/new.tsx:79-82 | leading white space is not trimmed and becomes a leading hyphen |
| Slug.TrailingSpaceGivesHyphen | src/pages/admin/products/new.tsx:79-82 | trailing white space is not trimmed and becomes a trailing hyphen |
| Slug.ReslugDeletesHyphens | src/pages/admin/products/new.tsx:81 | slugging a slug deletes its hyphens, so the function is idempotent exactly on slugs without a hyphen |
| Slug.NotIdempotentExample | src/pages/admin/categories/new.tsx:44-49 | "a b" slugs to "a-b", which slugs to "ab" |
| Slug.SlugOnBlur | src/pages/admin/products/new.tsx:85-89 | a typed slug or an empty name leaves the slug alone; an empty slug with a name is filled from the name |
| Slug.SlugOnBlurIdempotent | src/pages/admin/categories/new.tsx:51-55 | blurring twice is blurring once |
| Slug.BlurFillsSlug | src/pages/admin/categories/new.tsx:51-55 | a name holding a letter, digit or underscore gives a non-empty slug on blur |
| ProductForm.HandleSubmit | src/pages/admin/products/new.tsx:91-128 | no category gives the error and no call; otherwise the product is created first; the page moves on exactly when no error is shown; the update runs exactly when the creation and every upload succeeded and there is at least one file; loading is false on every path |
| ProductForm.UploadCalls | src/pages/admin/products/new.tsx:110-114 | one upload per selected file, the k-th for file k and the new product id |
| ProductForm.Urls | src/pages/admin/products/new.tsx:110-114 | when every upload succeeded, the URL list has one entry per upload, in file order |
| ProductForm.UpdateCarriesUploadedUrls | src/pages/admin/products/new.tsx:110-119 | every file is uploaded for the new id, and the update carries exactly the uploaded URLs in file order |
| ProductForm.EmptySlugIsKept | src/pages/admin/products/new.tsx:104-107 | unlike the category page, an empty slug is sent as it is |
| CategoryForm.HandleInputChange | src/pages/admin/categories/new.tsx:25-30 | the named field gets the value and every other field is unchanged |
| CategoryForm.ChangesKeepFields | src/pages/admin/categories/new.tsx:18-30 | the four declared fields survive every change |
| CategoryForm.HandleNameBlur | src/pages/admin/categories/new.tsx:51-55 | only the slug field changes, and it gets the blur rule's value |
| CategoryForm.SubmittedSlug | src/pages/admin/categories/new.tsx:77 | the typed slug when non-empty, else the slug generated from the name |
| CategoryForm.SubmittedSlugFacts | src/pages/admin/categories/new.tsx:51-77 | the submitted slug is non-empty when one was typed or the name has a word character; submitting after a blur sends the same slug |
| CategoryForm.HandleSubmit | src/pages/admin/categories/new.tsx:57-87 | no error exactly when the upload (if any) and the creation succeed; the upload happens exactly when a file is selected; the page moves on exactly without error; loading is false on every path |
| CategoryForm.CreationSendsAllFields | src/pages/admin/categories/new.tsx:74-78 | unless the upload failed, the category is created with every form field and the submitted slug |
| Cart.Load | src/pages/cart.tsx:21-68 | malformed storage shows the error and an empty cart; stored items are filtered to the ones that resolve; storage is rewritten, with the items shown, exactly when some item was dropped |
| Cart.KeepLoaded | src/pages/cart.tsx:34-52 | the kept items are no more than the stored ones and all carry their product |
| Cart.KeepLoadedMembership | src/pages/cart.tsx:37-52 | an item is kept, with its product attached, exactly when it has an id and its product loads |
| Cart.KeepLoadedDropsNothing | src/pages/cart.tsx:52-56 | nothing is dropped exactly when every item resolves |
| Cart.RewriteExactlyWhenDropped | src/pages/cart.tsx:56-58 | storage is rewritten at load exactly when some stored item fails to resolve |
| Cart.UpdateQuantity | src/pages/cart.tsx:70-78 | a quantity below 1 changes and writes nothing; otherwise the matching lines get the quantity, all others are unchanged, the length and order are kept, and the cart is written |
| Cart.UpdateKeepsPositive | src/pages/cart.tsx:71-75 | if every quantity is at least 1, it stays so |
| Cart.RemoveItem | src/pages/cart.tsx:80-84 | the cart is written, grows no longer, and no remaining line belongs to the removed product |
| Cart.RemoveItemAppend | src/pages/cart.tsx:81 | removal works line by line: removing from joined carts joins the removals, so the kept lines stay in their order, repeats included |
| Cart.RemoveItemSingle | src/pages/cart.tsx:81 | a single line is dropped exactly when it belongs to the product |
| Cart.RemoveAbsentIsIdentity | src/pages/cart.tsx:81 | a cart without lines of the product comes back unchanged |
| Cart.LinesOf | src/pages/cart.tsx:81 | the lines `removeItem` takes away all belong to the given product |
| Cart.RemoveKeepsOthers | src/pages/cart.tsx:80-84 | a line survives removal exactly when it belongs to another product |
| Cart.RemovePartitionsTotal | src/pages/cart.tsx:80-89 | the total is the total after removal plus the total of the removed lines |
| Cart.TotalAppend | src/pages/cart.tsx:86-89 | the total of joined carts is the sum of their totals |
| Cart.TotalNonNegative | src/pages/cart.tsx:86-89 | with non-negative prices and positive quantities the total is never negative |
| Shop.FilterChoice | src/pages/shop.tsx:49-57 | `null` fetches all products; any other id fetches by that category |
| Shop.FirstWithId | src/pages/shop.tsx:67 | the index of the first category with the id, or the length when none has it |
| Shop.SelectedCategoryName | src/pages/shop.tsx:66-68 | `null` exactly when nothing (or the empty id) is selected; a name only of a category with that id; `undefined` exactly when no category has it |
| Shop.FirstMatchWins | src/pages/shop.tsx:67 | when several categories share the id, the first one's name is shown |
| Shop.Heading | src/pages/shop.tsx:143 | the selected name when it is non-empty, else "All Products" |
| Shop.EmptyIdMismatch | src/pages/shop.tsx:49-68 | for the empty id, the filter fetches by category while the heading (line 143) says "All Products" |
| Shop.CardImageOf | src/pages/shop.tsx:165-178 | the first image exactly when the list is present and non-empty, else the placeholder |
| Shop.CardImageFacts | src/pages/shop.tsx:165-178 | images after the first change nothing, an empty list looks like a missing one, and a shown picture is one of the product's images |
| Shop.StockBadge | src/pages/shop.tsx:194-202 | no badge without stock; a stray "0" for stock 0; green above 10, yellow from 1 to 10, red below 0; the caption is "N left" for positive stock and "Out of stock" for negative |
| Shop.ColourMonotone | src/pages/shop.tsx:196-200 | more stock never gives a worse colour |
| Shop.OutOfStockOnlyWhenRed | src/pages/shop.tsx:196-202 | the caption says "Out of stock" exactly on red badges |
| EnvCheck.MissingVars | src/lib/checkEnv.ts:11 | a name is listed exactly when it is required and unset or empty |
| EnvCheck.MissingVarsLocal | src/lib/checkEnv.ts:5-11 | only the required names are inspected |
| EnvCheck.MissingVarsAppend | src/lib/checkEnv.ts:5-11 | the missing list keeps declared order |
| EnvCheck.NothingSetMissesAll | src/lib/checkEnv.ts:5-11 | with nothing set, every required name is reported, in order |
| EnvCheck.CheckFirebaseEnv | src/lib/checkEnv.ts:4-20 | true exactly when nothing required is missing |
| EnvCheck.CheckFirebaseEnvExactly | src/lib/checkEnv.ts:5-19 | true exactly when all three variables are set and non-empty |
| EnvCheck.EmptyValueFailsCheck | src/lib/checkEnv.ts:11 | setting a required variable to "" fails the check |
| EnvCheck.CheckFirebaseEnvIgnoresOthers | src/lib/checkEnv.ts:5-9 | no other variable changes the answer |
| EnvCheck.DeployRequired | scripts/deploy.js:108-123 | the lookup finds a member without `filter` exactly for the names inherited from `Object.prototype`; any other name without an entry requires nothing |
| EnvCheck.DeployMissing | scripts/deploy.js:123 | the expression throws exactly for the names inherited from `Object.prototype`; otherwise a name is listed exactly when the environment requires it and it is unset or empty |
| EnvCheck.ProductionExtendsStaging | scripts/deploy.js:110-120 | production misses what staging misses, then possibly `STRIPE_SECRET_KEY` |
| DotEnv.ParseLineMeaning | scripts/deploy.js:100-104 | a line defines a variable exactly when it has an '=' after a non-empty key and does not start with '#'; the key is the trimmed text before the first '=', and the value the trimmed rest, later '=' included |
| DotEnv.CommentLineIgnored | scripts/deploy.js:102 | a line starting with '#' defines nothing |
| DotEnv.LineWithoutEqualsIgnored | scripts/deploy.js:101-102 | a line without '=' defines nothing |
| DotEnv.KeySetIff | scripts/deploy.js:100-105 | a key is set exactly when some line defines it |
| DotEnv.LastDefinitionWins | scripts/deploy.js:103 | a key's value is the one its last defining line gives |
| DotEnv.EmptyAssignmentIsMissing | scripts/deploy.js:103-123 | a key whose last definition is empty counts as missing |
| DotEnv.IndentedCommentIsRead | scripts/deploy.js:101-103 | " #A=1" defines the key "#A": the comment test looks at the untrimmed key |
| DotEnv.CheckEnvironmentVariables | scripts/deploy.js:86-132 | a missing file fails; with a file, the check throws exactly for a name inherited from `Object.prototype`, and otherwise passes exactly when no required variable is unset or empty in the file |
| DotEnv.UnlistedEnvironmentPasses | scripts/deploy.js:123 | a name that is neither one of the three environments nor inherited from `Object.prototype` passes whenever the file exists |
| DotEnv.PrototypeNameThrows | scripts/deploy.js:123 | a name inherited from `Object.prototype` makes the check throw when the file exists, and fail when it does not |
| DeployConfig.EnvOr | deployment.config.js:11 | the variable when set and non-empty, else the fallback |
| DeployConfig.EnvOf | deployment.config.js:6-94 | each of the three names selects its own entry of the table, and no other name is an own key of it |
| DeployConfig.Select | deployment.config.js:102 | `environments[name]` finds a table entry exactly for the three names, an inherited `Object.prototype` member exactly for the prototype keys, and nothing otherwise |
| DeployConfig.ArgOrDefault | deployment.config.js:101 | the argument when given, else `NODE_ENV`, else "development" |
| DeployConfig.Resolve | deployment.config.js:102 | a known name gets its own entry, a prototype key gets the inherited member, and any other name gets development |
| DeployConfig.InheritedView | deployment.config.js:110-133 | an inherited member, read as a configuration, has no `url`, `firebase`, `vercel` or `features`; only `__proto__` also lacks a `name` |
| DeployConfig.MissingFields | deployment.config.js:144-146 | at most the five required top-level field names are reported |
| DeployConfig.FirebaseMissing | deployment.config.js:153-155 | at most the two required Firebase field names are reported |
| DeployConfig.ValidConfigIff | deployment.config.js:140-163 | a configuration passes exactly when every top-level field and the Firebase `projectId` and `hosting` are present and non-empty |
| DeployConfig.MissingNameReported | deployment.config.js:144-145 | a configuration lacking only its name reports exactly "name" |
| DeployConfig.BuiltInsValid | deployment.config.js:140-163 | whatever the variables hold (the project ids default at lines 11, 33 and 63), a name passes exactly when it is not a key inherited from `Object.prototype` |
| DeployConfig.UnknownNameIsDevelopment | deployment.config.js:101-133 | a name that is neither a table key nor an inherited key gets the development entry from every accessor |
| DeployConfig.PrototypeNameHasNoEntry | deployment.config.js:101-163 | for a prototype key the three projections are undefined and the check fails, reporting `url`, `firebase`, `vercel` and `features` (and `name` for `__proto__`) |
| DeployConfig.ConstructorIsNotDevelopment | deployment.config.js:102 | `getEnvironmentConfig('constructor')` is the `Object` function, not the development entry |
| DeployConfig.FlagsByEnvironment | deployment.config.js:18-92 | only production has Vercel production and no preview; debug and mock data only in development; analytics everywhere else |
| DeployConfig.ProjectIdSource | deployment.config.js:11-63 | the project id is `FIREBASE_PROJECT_ID` when set and non-empty, else the environment's default |
| DeployConfig.HostingByEnvironment | deployment.config.js:12-82 | every entry serves `out` with the same ignore list and rewrite; staging caches scripts; production caches scripts and images |
| Deploy.RunInOrder | scripts/deploy.js:140-156 | commands run until the first failure; success exactly when all succeed; a failure issued a non-empty prefix |
| Deploy.Prerequisites | scripts/deploy.js:52-81 | every tool is probed even after a missing one; the repository probe runs only when all tools are present; the check passes exactly when all probes succeed |
| Deploy.FirebaseCommand | scripts/deploy.js:203-207 | the staging deploy exactly for staging, else the plain hosting deploy |
| Deploy.VercelCommand | scripts/deploy.js:226-230 | `vercel --prod` exactly when the configuration says production |
| Deploy.FirebaseJson | scripts/deploy.js:192-197 | `public` is "out" for development and ".next" otherwise; the rest of the hosting section is the environment's |
| Deploy.TestAndShip | scripts/deploy.js:285-314 | from the tests on: success exactly when the tests (outside development), the build with its output directory, the firebase.json write and the Firebase deploy pass; with a failed write, only the earlier commands and tests are issued and nothing is written; a failure exits 1 having issued a prefix of the remaining plan; smoke tests exactly on success outside development |
| Deploy.Ship | scripts/deploy.js:292-314 | from the build on: success exactly when the build, its output directory, the firebase.json write and the Firebase deploy pass; success issues the build, the deploy and then the optional Vercel step; the build alone is issued exactly when the build, its directory or the write fails; firebase.json is written exactly when the build and its directory pass and the write succeeds |
| Deploy.Deploy | scripts/deploy.js:262-322 | the exit code is 0 or 1; an unknown environment exits 1 before any command; firebase.json is recorded only when its write succeeds, and its `public` follows the environment; smoke tests run exactly on a successful run outside development |
| Deploy.DeployExitIff | scripts/deploy.js:266-314 | a run exits 0 exactly when the environment is known and the prerequisites, the variables, the tests (outside development), the build with its output directory, the firebase.json write and the Firebase deploy all pass |
| Deploy.FailedWriteSkipsFirebase | scripts/deploy.js:199-214 | a failed firebase.json write exits 1, records no firebase.json, and issues neither Firebase command nor any Vercel command |
| Deploy.DeployFollowsPlan | scripts/deploy.js:271-314 | a failed run issued a prefix of the plan; a successful one the whole plan and then the optional Vercel deploy |
| Deploy.VercelFailureIgnored | scripts/deploy.js:303-307 | the exit code does not depend on how the Vercel command exits |
| Deploy.PlanHasNoVercel | scripts/deploy.js:271-300 | no Vercel command is part of the mandatory plan |
| Deploy.VercelProdOnlyInProduction | scripts/deploy.js:303-307 | `vercel --prod` runs exactly on a successful production run with the Vercel deploy requested |
| Deploy.TestsSkippedInDevelopment | scripts/deploy.js:286-290 | a development run never issues a test command |
| Deploy.FirebaseJsonHeaders | scripts/deploy.js:192-197 | the written hosting section keeps the environment's cache headers |
| Deploy.CliEnvironment | scripts/deploy.js:326-327 | the first argument when present and non-empty, else "development" |
| AdminLogin.AdminEmails | src/pages/api/admin/login.ts:5 | joining the list with ',' gives back the variable's text; unset or empty gives the list [""] |
| AdminLogin.UnsetListOnlyClaims | src/pages/api/admin/login.ts:5-33 | with `ADMIN_EMAILS` unset or empty, only the admin claim makes an admin |
| AdminLogin.SpaceAfterCommaNeverMatches | src/pages/api/admin/login.ts:5-33 | "a@x, b@x" admits "a@x" but not "b@x", because entries are not trimmed |
| AdminLogin.SessionCookie | src/pages/api/admin/login.ts:39-45 | the cookie is `admin_token` holding the ID token: http-only, path "/", 8 hours, lax, and secure exactly in production |
| AdminLogin.Handle | src/pages/api/admin/login.ts:7-51 | 405 exactly for a non-POST; 400 exactly for a POST with an empty field; a cookie exactly on 200; 200 exactly for a verified admin after a successful sign-in; 401 whenever a well-formed POST's sign-in is refused, carrying the upstream message or "Invalid credentials"; 403 exactly for a verified non-admin; 500 exactly when a call throws on a well-formed POST |
| AdminLogin.MethodCheckedFirst | src/pages/api/admin/login.ts:8-10 | a non-POST request's answer depends on nothing else |
| AdminLogin.NonAdminForbidden | src/pages/api/admin/login.ts:33-36 | a verified non-admin gets 403 and no cookie |
| AdminLogin.ThrowGives500 | src/pages/api/admin/login.ts:17-50 | a throwing call in a well-formed request gives 500 |
| AuthServer.CheckIsAdmin | src/lib/auth.server.ts:5-17 | true exactly when the document exists with role "admin"; a failed read is false |
| AuthServer.LoginRedirect | src/lib/auth.server.ts:27-32 | a non-permanent redirect to the login page with the requested URL appended as it is |
| AuthServer.ProtectAdminRoute | src/lib/auth.server.ts:20-64 | no token or a failed verification goes to the login page; props exactly for a verified admin, with its uid; home exactly for a verified non-admin; no redirect is permanent |
| AuthServer.LoginRedirectInjective | src/lib/auth.server.ts:29 | different pages give different login redirects |
| AuthServer.ReadFailureSendsHome | src/lib/auth.server.ts:13-47 | a failed document read is treated as a non-admin: home |
| RouterRewrite.Match | scripts/fix-router-imports.js:75-90 | a match is non-empty, fits in the text, and starts with its pattern's keyword |
| RouterRewrite.FromPassRemovesAll | scripts/fix-router-imports.js:75-78 | after the first pass no `from\s+['"]next/navigation['"]` remains |
| RouterRewrite.LaterPassKeepsFromGone | scripts/fix-router-imports.js:81-90 | the later passes create no new match of the first pattern |
| RouterRewrite.CallPassNormalises | scripts/fix-router-imports.js:81-84 | after the second pass every `useRouter\s*\(\s*\)` is exactly `useRouter()` |
| RouterRewrite.ImportPassKeepsNormalised | scripts/fix-router-imports.js:87-90 | the third pass keeps every call canonical |
| RouterRewrite.ShortCallIsCanonical | scripts/fix-router-imports.js:82-83 | a call match of length 11 is the text `useRouter()` |
| RouterRewrite.RewriteGuarantees | scripts/fix-router-imports.js:75-90 | the rewritten text has no first-pattern match left and only canonical calls |
| RouterRewrite.ReplaceWithoutMatch | scripts/fix-router-imports.js:75-90 | a pass over text without a match changes nothing |
| RouterRewrite.NoKeywordNoMatch | scripts/fix-router-imports.js:75-90 | text lacking a pattern's keyword has no match of it |
| RouterRewrite.FixRouterImports | scripts/fix-router-imports.js:65-111 | true exactly when the file was read, mentions `next/navigation` and was written; what is written is the rewritten content, and only then |
| RouterRewrite.WrittenTextIsClean | scripts/fix-router-imports.js:75-104 | the written text has no first-pattern match and only canonical calls |
| RouterRewrite.MentionOnlyIsRewrittenUnchanged | scripts/fix-router-imports.js:71-104 | a file that only names the module is written back unchanged and still reported as fixed |
| SourceScan.FindFilesIff | scripts/fix-router-imports.js:42-62 | a path is listed exactly when it lies under the start directory and an entry leads to it through entered directories |
| SourceScan.CollectIff | scripts/fix-router-imports.js:48-56 | the same for a single entry |
| SourceScan.ListedFilesAreSources | scripts/fix-router-imports.js:52-55 | every listed file has a listed extension and passes through no dot-directory and no `node_modules` |
| SourceScan.SkippedDirectoryIgnored | scripts/fix-router-imports.js:52 | a skipped directory contributes nothing, whatever it holds |
| SourceScan.DotFileListed | scripts/fix-router-imports.js:52-55 | only directories are skipped by name: `.eslintrc.js` is listed |
| FixScript.FixedCount | scripts/fix-router-imports.js:126-135 | at most the number of files; zero exactly when none is fixed; all exactly when every file is fixed |
| FixScript.FixedCountAppend | scripts/fix-router-imports.js:126-135 | the count of a joined file list is the sum of the counts of its parts |
| FixScript.FixedCountSingle | scripts/fix-router-imports.js:126-131 | one file counts 1 exactly when `fixRouterImports` reports it fixed, and 0 otherwise |
| FixScript.Writes | scripts/fix-router-imports.js:100-101 | each write is to one of the listed files |
| FixScript.WritesMatchCount | scripts/fix-router-imports.js:100-134 | as many writes as fixed files, and every fixed file has a write |
| FixScript.FixedFileWritten | scripts/fix-router-imports.js:100-134 | a file reported fixed is among the written paths |
| FixScript.WrittenContentIsRewrite | scripts/fix-router-imports.js:65-111 | every write puts back the rewritten content of a file that was read and mentions the module, and that content is clean |
| FixScript.Run | scripts/fix-router-imports.js:114-168 | as written: fixed never exceeds processed; the dev server is restarted exactly when something was fixed; a completed run exits 1 |
| FixScript.RunCorrected | scripts/fix-router-imports.js:114-168 | with `main` declared `async`, the run agrees with `Run` except that it exits 0 |
| FixScript.RestartIff | scripts/fix-router-imports.js:123-155 | the dev server restarts exactly when some listed file mentions the module and could be written back |
| FixScript.ExitStatus | scripts/fix-router-imports.js:164-168 | status 0 exactly for a promise that resolved |
| FixScript.SuccessfulRunExitsWithFailure | scripts/fix-router-imports.js:164-168 | as written (`main` is declared without `async` at line 114), a completed run exits 1, and no run exits 0 |
| FixScript.ScriptExit | scripts/fix-router-imports.js:164-168 | with `main` declared `async`, the script exits 0 exactly when `main` completes and 1 exactly when it throws |

## Left out

- Real time and randomness are not modelled. Clock readings are inputs (`HealthChecker`); timer durations are constants on scheduled events (the navigation hooks).
- Retry.WithRetry: the recorded waits leave out the `Math.random() * 1000` jitter, and the waits are recorded rather than slept.
- Slug.GenerateSlug: lower-casing is modelled for ASCII letters only. Unicode case mapping is left out; the white-space class is the full ECMAScript one.
- ProductForm.HandleSubmit: the numeric fields and their `parseFloat` handling are left out. So are `handleInputChange`, `handleCategoryChange` and `handleFileChange` of the product page, which only copy input values into state.
- Cart.Load: `JSON.parse` is abstracted. Its outcome is given as malformed text or a list, and anything that is not a non-empty array counts as an empty cart. A failing `localStorage.setItem` is not modelled.
- Cart: prices are integer cents, not JavaScript floating-point numbers.
- SDK and platform calls are given by their outcomes only: Firestore, Storage, Auth, the sign-in REST call, `verifyIdToken`, and the router's `push`/`replace`/`back`.
- `useFirebaseHealth` polling, `setupFirebaseEmulators`, and the `getInstance` singleton are left out. The model starts from the checker's initial state.
- All console and log output is left out, including the "potential router import issue" warning in `fixRouterImports`, which affects nothing.
- File-system errors in `findFiles` are represented only as a `main` that throws (`FixScript.Completion`). Path joining is modelled as component lists, without `path.join` normalisation.
- FixScript.Run: how long the `npm run dev` child process runs is not modelled. Its exit status is ignored by the source, and the model takes the call as returning.
- Deploy.Deploy: the configuration check is applied to the built-in table as loaded once from the process environment. The smoke tests cannot fail, as in the source. A `process.exit` inside the `try` ends the run with 1 and is modelled as such. Whether the firebase.json write throws is an input; the file's contents on disk are not modelled.
- Rendering markup and styling are left out. `ErrorRecovery.Render` and `LoginForm.Render` keep only the controls the decisions above choose.
- AdminLogin.Handle: a request body that is not an object, and non-string field values, are not modelled. Missing fields are the empty string.
- ErrorRecovery.UiStep, ErrorRecovery.NoReentrantRecovery and LoginForm.HandleSubmit: the guards read `isRecovering`, `isSubmitting` and the hook's `isNavigating` (React state and a value captured at render, not refs) as left by the previous event, as if the component re-rendered between clicks. A handler running on a stale render's closure is not modelled. The navigation hooks keep their flags in refs, so they read the current value.
- NavigationGuard: mutual exclusion of router calls holds only until a clearing event (`NavigationGuard.BusyUntilCleared`). "At most one router call in flight" is not promised, because the source does not keep it: the fallback timer re-issues a path while the first push may still be pending (`NavigationGuard.FallbackOverlapsInFlightCall`).

## Findings

| source | as written | input that shows it | evidently intended | confidence | as-written member | corrected member |
|---|---|---|---|---|---|---|
| scripts/fix-router-imports.js:164-168 | `main` (line 114) is a plain function, so `main()` is `undefined` and `.catch` is read off `undefined`, which throws a TypeError after the run | any run in which `main` returns normally | `main` declared `async`, so that the script exits 0 after a successful run and 1 when `main` throws | not executed | FixScript.SuccessfulRunExitsWithFailure | FixScript.ScriptExit |
