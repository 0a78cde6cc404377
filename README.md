# RouteMapper core in Dafny

RouteMapper lets a user authorize a Strava account through OAuth in a popup window, then draws the user's activity routes on a map, page by page, with a check box per year. This project models the three React hooks that hold its logic, each as a sequential state machine over plain values:

- **Authentication** (`useStravaAuth`). A reducer over `{view, isAuthenticating, isCheckingToken, accessToken, error}` with seven actions. It writes and removes three keys in the browser's key/value store. Around it sit these decisions:
  - the initial view, taken from the page location;
  - the OAuth 2.0 grant of the token request: authorization code or refresh token (sections 4.1.3 and 6 of RFC 6749);
  - the startup check of a stored session: refresh it, confirm it, or only finish the check;
  - the popup message handler, which first checks the message's origin.
- **Activities** (`useStravaActivities`). Each page fetch keeps only activities that have path geometry, gives each a palette colour and appends them to the route list. The hook also keeps a page cursor. Its year list holds one `{year, checked}` entry per route year, merged in as new years appear. A per-year toggle flips an entry, and the visible subset holds the routes whose year is checked.
- **Map interaction** (`useMapInteraction`). A click on a route's layer selects the first route with that id and moves the popup to the click. Closing the popup clears the selection. The cursor toggles between `auto` and `pointer`.

Modules:
- `Wrappers`: `Option`.
- `Decimal`: JavaScript's `String(n)` and `Number(s)` on integers.
- `Sequences`: `includes`, `filter`, `[...new Set(xs)]` and subsequences.
- `StravaTypes`: the activity record and JavaScript string truthiness.
- `SessionStore`: `localStorage` as a class holding a `map<string, string>`.
- `StravaAuth`, `StravaActivities`, `MapInteraction`: one module per hook.

State that the hooks change in place is a class:
- `StravaAuth.AuthHook`: the reducer's state cell plus the store. Its invariant is that the cached token equals the stored one.
- `StravaActivities.ActivityFeed`: routes, loading flag, years and page. Its invariant: every route has geometry and a palette colour, each year is listed once, and every route's year is listed.
- `MapInteraction.Interaction`: clicked point, cursor and selection.

Each method is proved against pure functions, and the lemmas are about those functions.

Inputs the hooks take from their environment are parameters:
- the page location, the clock (`now`, in milliseconds) and the app's origin;
- the token endpoint's response, and the activity feed as a function from page number to response;
- the successive `Math.random()` draws (`random(i)` in `[0, 1)`) and the colour palette;
- the year of a `start_date` (`yearOf`) and the date formatter (`formatDateTime`).

In these places the model follows the code, whose behaviour may be unexpected:
- **Logout view.** `LOGOUT` sets the view to the view computed when the page loaded (`initialState.view`), not always to the home screen. They are the same on every page other than the redirect page (`StravaAuth.GetInitialView`).
- **Token check after a refresh.** When the startup check finds an expired token, it starts a refresh, and nothing afterwards clears `isCheckingToken`. `SUCCESS` and `FAILURE` leave that flag as it was (`StravaAuth.ExchangeKeepsCheckFlag`). After a failed refresh, the home screen shows the "Checking Access Token" notice next to the error.
- **No exchange guard.** The code has no re-entrancy guard on the token exchange, so none is modelled.
- **Denied permission.** A denied-permission message sets `error` and clears `isAuthenticating`. It does not change the view.
- **No `redirect_uri` in the code exchange.** The authorization request names a `redirect_uri` (src/hooks/useStravaAuth.ts:188-190), but the token request never sends one (src/hooks/useStravaAuth.ts:84-96), although section 4.1.3 of RFC 6749 requires it in that case. `StravaAuth.CarriesGrantCredential` checks only the grant's credential, not full conformance.
- **Code while signed in.** An authorization-code message that arrives while an access token is held sends a refresh grant, and the code is not sent (`StravaAuth.BuildTokenParams`).

## Model

| member | source | states |
|---|---|---|
| `StravaAuth.GetInitialView` | src/hooks/useStravaAuth.ts:27-37 | "failure" exactly when the path contains "/redirect" and the query contains "error"; "success" when the path contains "/redirect" and the query does not; "homeScreen" exactly when the path does not contain "/redirect"; never "authenticated" |
| `Sequences.HasInfixIff` | src/hooks/useStravaAuth.ts:28-29 | `includes` is true exactly when the text occurs at some position |
| `StravaAuth.NextState` | src/hooks/useStravaAuth.ts:47-77 | per action. START sets authenticating, clears the error, keeps the rest. SUCCESS: view authenticated, token from the payload, not authenticating, error and check flag kept. FAILURE: not authenticating, error set, view, token and check flag kept. TOKEN_VALID: authenticated, check done. TOKEN_CHECK_COMPLETE clears only the check flag. LOGOUT: load-time view, no token, not checking, not authenticating, no error. SET_VIEW changes only the view |
| `StravaAuth.StoreAfter` | src/hooks/useStravaAuth.ts:51-71 | SUCCESS stores the token, the refresh token and the decimal expiry. LOGOUT removes all three keys. No other key changes, and every other action leaves the store as it was |
| `StravaAuth.AuthReducer` | src/hooks/useStravaAuth.ts:47-77 | performs the action's store writes in order. The new store is `StoreAfter` of the old one, and the result is `NextState` |
| `StravaAuth.ReducerKeepsTokenCached` | src/hooks/useStravaAuth.ts:39-71 | if the state's token equals the stored token, it still does after any action |
| `StravaAuth.ReducerKeepsSessionPaired` | src/hooks/useStravaAuth.ts:51-71 | the refresh token and the expiry are stored together or not at all, before and after every action |
| `StravaAuth.OnlySuccessAndLogoutTouchSession` | src/hooks/useStravaAuth.ts:47-77 | any action other than SUCCESS and LOGOUT leaves the token and the store unchanged |
| `StravaAuth.TokenParams` | src/hooks/useStravaAuth.ts:84-96 | a refresh grant exactly when an access token is held, an authorization-code grant otherwise. The code is sent exactly for a code grant with a code, the refresh token exactly for a refresh grant with a stored refresh token, each with its given value. The client id and secret are always sent, and nothing else |
| `StravaAuth.BuildTokenParams` | src/hooks/useStravaAuth.ts:84-96 | the grant is "refresh_token" exactly when a (non-empty) access token is held, "authorization_code" otherwise. `code` is sent exactly when there is no token and a code was given. `refresh_token` is sent exactly when there is a token and a stored refresh token. Both carry the given values, and there are no other keys besides client id and secret |
| `StravaAuth.TokenParamsCarriesCredentialIff` | src/hooks/useStravaAuth.ts:87-96 | the request carries the credential its grant needs (the code for the code grant, the refresh token for the refresh grant) exactly when that credential is at hand: a truthy code without a token, a truthy stored refresh token with one |
| `StravaAuth.CodeGrantOmitsRedirectUri` | src/hooks/useStravaAuth.ts:84-96 | a code-grant request carries the code but no `redirect_uri`, although the authorization request at lines 186-190 named one |
| `StravaAuth.ExchangeOutcome` | src/hooks/useStravaAuth.ts:98-120 | an exchange ends in exactly one action. It is SUCCESS with the response's tokens exactly for an ok response. A non-ok status gives FAILURE with "Response status: N", and a thrown error gives FAILURE with the error's message |
| `StravaAuth.ExchangeKeepsCheckFlag` | src/hooks/useStravaAuth.ts:51-62 | no exchange outcome changes `isCheckingToken`. A failed one keeps the view and the token, sets an error and clears `isAuthenticating` |
| `StravaAuth.TokenExpired` | src/hooks/useStravaAuth.ts:129-131 | a stored value that is not a number never counts as expired. A value written as the decimal of `seconds` is expired exactly when `seconds*1000 < now` |
| `Decimal.ParseNumber` | src/hooks/useStravaAuth.ts:129 | the empty string reads as 0, a string of digits reads as a non-negative number, a negative result comes only from a leading minus, and not-a-number only from a non-empty string that is not all digits |
| `StravaAuth.StartupDecision` | src/hooks/useStravaAuth.ts:124-138 | only finishes the check exactly when the token, the stored expiry or the stored refresh token is missing or empty. Refreshes exactly when all three are present and `expiresAt*1000 < now`. Confirms otherwise |
| `StravaAuth.StoredSessionRoundTrip` | src/hooks/useStravaAuth.ts:124-135 | after a SUCCESS, the startup check reads back the stored expiry. It confirms without a request while `expiresAt*1000 >= now` and refreshes once expired |
| `StravaAuth.LogoutEndsSession` | src/hooks/useStravaAuth.ts:67-71 | after a logout, the startup check makes no request and only finishes the check |
| `StravaAuth.StartupRefreshCarriesRefreshToken` | src/hooks/useStravaAuth.ts:129-132 | the refresh that the startup check triggers is a refresh grant carrying the stored refresh token |
| `StravaAuth.AuthMessageEffect` | src/hooks/useStravaAuth.ts:158-174 | a foreign origin has no effect. The code is exchanged exactly for a same-origin "strava-auth-code" message with a code. Access is denied exactly for a same-origin "strava-permission-denied" message |
| `StravaAuth.RelayedMessages` | src/hooks/useStravaAuth.ts:140-156 | without an opener nothing is sent. The code message is sent exactly when there is an opener and a code, the denial exactly when there is an opener and an error, nothing else is sent, and the code message comes first |
| `StravaAuth.RelayedMessagesReachHandler` | src/hooks/useStravaAuth.ts:140-156 | each message the popup relays to its opener, received from the app's origin, leads to exchanging the popup's code or to reporting the denial. The code exchange happens exactly when there is a code. With no opener, nothing is sent |
| `StravaAuth.AuthHook.constructor` | src/hooks/useStravaAuth.ts:39-45 | initial state: the view from the location, not authenticating, checking the token, the token taken from the store, no error |
| `StravaAuth.AuthHook.Dispatch` | src/hooks/useStravaAuth.ts:80 | the state becomes `NextState` and the store becomes `StoreAfter`. The cached token stays equal to the stored one |
| `StravaAuth.AuthHook.ExchangeToken` | src/hooks/useStravaAuth.ts:82-121 | sends the `TokenParams` of the current token and stored refresh token, then applies the one action of `ExchangeOutcome` |
| `StravaAuth.AuthHook.CheckStoredToken` | src/hooks/useStravaAuth.ts:123-138 | takes the step `StartupDecision` chooses. On a refresh it sends exactly the `TokenParams` of the current token and stored refresh token with no code, then applies the outcome. On TOKEN_VALID or TOKEN_CHECK_COMPLETE no request is sent |
| `StravaAuth.AuthHook.HandleAuthMessage` | src/hooks/useStravaAuth.ts:158-174 | an ignored message changes neither state nor store and sends nothing. A code message sends exactly the `TokenParams` carrying the message's code and applies the outcome. A denial sends nothing and dispatches FAILURE with the fixed access-denied text |
| `StravaAuth.AuthHook.AuthenticateWithStrava` | src/hooks/useStravaAuth.ts:183-193 | dispatches START and leaves the store unchanged |
| `StravaAuth.AuthHook.LogOut` | src/hooks/useStravaAuth.ts:195-197 | the state becomes the load-time view with no token and all flags and the error cleared. The three session keys are removed and every other key is kept |
| `StravaAuth.AuthHook.SetCurrentView` | src/hooks/useStravaAuth.ts:206-207 | only the view changes |
| `Decimal.NatToString` | src/hooks/useStravaAuth.ts:54 | `String(n)` is a non-empty digit string without a leading zero |
| `Decimal.IntToString` | src/hooks/useStravaAuth.ts:54 | `String(i)` is non-empty, starts with a minus exactly when `i` is negative, and is otherwise digits without a leading zero |
| `Decimal.ParseNumberOfIntToString` | src/hooks/useStravaAuth.ts:129 | `Number(String(n)) == n` for every integer, so the stored expiry reads back unchanged |
| `Decimal.IntToStringInjective` | src/hooks/useMapInteraction.ts:20 | distinct ids give distinct decimal strings |
| `StravaTypes.LayerId` | src/hooks/useMapInteraction.ts:20 | the layer id reads back as the activity's id |
| `StravaTypes.LayerIdMatchesId` | src/hooks/useMapInteraction.ts:20 | two activities have the same layer id exactly when they have the same id |
| `StravaActivities.Retained` | src/hooks/useStravaActivities.ts:36-38 | no more activities than fetched, and an activity is kept exactly when it was fetched and has geometry (`HasGeometry`, the filter callback at line 37: a map object with a non-empty polyline) |
| `StravaActivities.RetainedSpec` | src/hooks/useStravaActivities.ts:36-38 | the kept activities are exactly those with a map object and a non-empty polyline, every occurrence of them, as an order-preserving subsequence of the fetched list |
| `StravaActivities.PaletteIndex` | src/hooks/useStravaActivities.ts:41 | `floor(random * n)` is always a valid palette index |
| `StravaActivities.DrawColor` | src/hooks/useStravaActivities.ts:41 | the colour picked by any draw of `Math.random()` is a palette colour |
| `StravaActivities.ColorRoutes` | src/hooks/useStravaActivities.ts:39-42 | the count is kept, every field other than `color` is kept, and every colour comes from the palette |
| `StravaActivities.Arrived` | src/hooks/useStravaActivities.ts:32-47 | a failed fetch appends nothing. A successful one appends as many routes as were kept, and they match the kept activities in order apart from their palette colour. Every appended route has geometry |
| `StravaActivities.ActivityFeed.constructor` | src/hooks/useStravaActivities.ts:6-9 | no routes, not loading, no years, page cursor 1 |
| `StravaActivities.ActivityFeed.FetchActivities` | src/hooks/useStravaActivities.ts:11-52 | after a success, `routes == old(routes) + Arrived` and the years are merged. After a failure, routes and years are unchanged. Loading is false afterwards either way |
| `StravaActivities.ActivityFeed.FetchMoreActivities` | src/hooks/useStravaActivities.ts:54-58 | requests page `page+1` and then advances the cursor by one, even when that fetch failed |
| `StravaActivities.ActivityFeed.OnAccessToken` | src/hooks/useStravaActivities.ts:97-101 | fetches page 1 exactly when a token is present. On an ok response the years are merged with the new route years; otherwise routes and years are unchanged. Without a token nothing changes |
| `StravaActivities.ActivityFeed.SyncYears` | src/hooks/useStravaActivities.ts:77-95 | the years become `MergeYears` of the old list and the route years, and the hook invariant holds again |
| `StravaActivities.ActivityFeed.HandleYearChange` | src/hooks/useStravaActivities.ts:67-75 | the years become `ToggleYear` of the old list, and the invariant is kept |
| `Sequences.DedupSpec` | src/hooks/useStravaActivities.ts:78-82 | `[...new Set(xs)]` has no duplicates, holds exactly the values of `xs`, and keeps them in first-occurrence order: an earlier value of the result first occurs in `xs` before a later one |
| `StravaActivities.MergeYears` | src/hooks/useStravaActivities.ts:84-94 | the old entries stay as a prefix, and every appended entry is checked, has a route year, and has a year not listed before |
| `StravaActivities.MergeYearsAppendsNewYears` | src/hooks/useStravaActivities.ts:84-94 | the old entries, with their flags, stay as a prefix. The appended entries are all checked, have no duplicates, and their years are exactly the route years not listed before |
| `StravaActivities.MergeYearsKeepsYearsDistinct` | src/hooks/useStravaActivities.ts:84-94 | a list without duplicate years has none after the merge |
| `StravaActivities.MergeYearsCoversRouteYears` | src/hooks/useStravaActivities.ts:77-95 | after the merge, every route year has an entry |
| `StravaActivities.MergeYearsIdempotent` | src/hooks/useStravaActivities.ts:77-95 | merging the same routes again changes nothing |
| `StravaActivities.ToggleYear` | src/hooks/useStravaActivities.ts:67-75 | length, order and years are kept. `checked` flips exactly on the entries for the given year |
| `StravaActivities.ToggleYearInvolution` | src/hooks/useStravaActivities.ts:67-75 | toggling the same year twice gives back the original list |
| `StravaActivities.ToggleYearsCommute` | src/hooks/useStravaActivities.ts:67-75 | toggles of two years give the same list in either order |
| `StravaActivities.SelectedYearsSpec` | src/hooks/useStravaActivities.ts:61 | a year is selected exactly when some entry for it is checked |
| `StravaActivities.DisplayedRoutes` | src/hooks/useStravaActivities.ts:60-65 | no more routes than given, and a route is shown exactly when it is among the routes and its year has a checked entry |
| `StravaActivities.ActivityFeed.Displayed` | src/hooks/useStravaActivities.ts:60-65 | the hook's visible routes are exactly its routes whose year is checked |
| `StravaActivities.DisplayedRoutesSpec` | src/hooks/useStravaActivities.ts:60-65 | the visible subset is exactly the routes whose year has a checked entry, every occurrence of them, as an order-preserving subsequence of the routes |
| `StravaActivities.DisplayedRoutesAppend` | src/hooks/useStravaActivities.ts:60-65 | the visible subset of the appended routes is the old visible subset followed by the visible part of the new page |
| `StravaActivities.ToggleYearIsChecked` | src/hooks/useStravaActivities.ts:60-75 | with one entry per year, toggling a listed year flips whether it is shown and leaves every other year as it was |
| `MapInteraction.FindRoute` | src/hooks/useMapInteraction.ts:19-21 | returns nothing exactly when no route's decimal id equals the layer id. Otherwise returns the first route in list order whose id does |
| `MapInteraction.FindRouteById` | src/hooks/useMapInteraction.ts:19-21 | with unique ids, a route's own layer id finds that route |
| `MapInteraction.KmhRounded` | src/hooks/useMapInteraction.ts:27-28 | `Math.round(v * 3.6)` is within half a unit of `v * 3.6` |
| `MapInteraction.ForDisplay` | src/hooks/useMapInteraction.ts:24-29 | only `start_date`, `average_speed` and `max_speed` are rewritten: the date is formatted and the speeds are rounded km/h. Every other field is identical |
| `MapInteraction.NextCursor` | src/hooks/useMapInteraction.ts:39-41 | the result is always "auto" or "pointer", and it is "auto" exactly when the cursor was "pointer" |
| `MapInteraction.NextCursorTwiceRestores` | src/hooks/useMapInteraction.ts:39-41 | from "auto" or "pointer", two changes restore the cursor |
| `MapInteraction.Interaction.constructor` | src/hooks/useMapInteraction.ts:7-11 | no clicked point, cursor "auto", no selection |
| `MapInteraction.Interaction.HandleMapClick` | src/hooks/useMapInteraction.ts:13-37 | no features: the selection is cleared and the point is kept. A top layer id that is missing or empty changes nothing. Otherwise the point becomes the click, and the selection becomes the display copy of the first matching route, or nothing if none matches. The cursor never changes |
| `MapInteraction.Interaction.HandlePointerChange` | src/hooks/useMapInteraction.ts:39-41 | the cursor becomes `NextCursor` of the old one and stays one of the two values |
| `MapInteraction.Interaction.ClosePopup` | src/hooks/useMapInteraction.ts:43-45 | only the selection changes, and it becomes empty |

## Left out

- Network and browser I/O are not modelled. This covers `fetch`, `response.json`, URL and query construction, `window.open`, the `postMessage` transport, and adding or removing the message listener. Responses, messages and the location enter as values.
- Stale closures and React scheduling are not modelled. The message handler's `exchangeToken` reads the state of the first render, and `fetchActivities` appends to the `routes` of the render it was created in. The model applies every update in sequence to the current state. What this hides: if the page loaded with a stored token and the user logs out, a later popup code still gets a refresh grant without a refresh token, because the handler keeps the first render's `accessToken` (src/hooks/useStravaAuth.ts:87-96, 164). Sign-in then fails until the page is reloaded, while the model signs in.
- `ActivityFeed.FetchActivities` leaves out the optional `year` argument. It only adds `before`/`after` bounds to the URL, and no caller passes it. The local-time year bounds are left out with it.
- Dates are not modelled. The year of a `start_date` is the parameter `yearOf`, and `formatDateTime` is a parameter. `@/lib/utils` is not part of this model.
- The `COLORS` palette is a parameter, assumed non-empty, because `@/lib/utils` is not part of this model.
- `Decimal.ParseNumber` reads only optionally signed decimal integers. Other forms that `Number` accepts read as not-a-number: surrounding spaces, `+`, fractions, exponents and hexadecimal. So does anything else not written by `String` of an integer.
- Expiry times and activity ids are unbounded integers. JavaScript numbers are exact integers only up to 2^53, and `String(n)` writes plain digits only below 10^21; the model assumes values stay in that range. Speeds are exact reals, and `Math.round(v * 3.6)` is computed without floating-point error.
- A token response whose JSON lacks one of its fields (stored as the text "undefined") is not modelled. A response carries its three fields or it is a thrown error.
- Console logging is not modelled.
- A message event without a `data` object throws in the handler before any dispatch. It is modelled as having no effect.
- The activity record keeps only `id`, `name`, `distance`, `start_date`, `map`, `average_speed`, `max_speed`, `kudos_count` and `color`. The hooks pass every other field through unchanged.
- `src/App.tsx`, `src/components/Redirect.tsx` and `src/components/MapboxMap.tsx` are presentational and are not modelled. This includes the older `!!activity.map` filter in `MapboxMap.tsx`.
