# Inbox session controller of the disposable-inbox client, in Dafny

This project models the logic behind the `InboxManager` React component of a disposable email
inbox client (`src/components/InboxManager.tsx`). Behind its markup the component is a small
inbox-session controller:

- an **expiry countdown**: a `timer` (seconds left) and a `timerExpired` latch, armed from the
  session's `expiresAt` whenever the session changes, decremented once per second by a repeating
  interval, and on reaching zero latching, calling the hook's `deleteInbox()` and showing one
  "inbox deleted" toast;
- the **auto-provisioning** effect that calls `createInbox()` when the user is not authenticated, nothing is
  being created, the domain catalogue loaded without error and some domain is active and public;
- the **render-state selection**: domains loading, then domain error, then "no inbox yet" (with its
  heading "Creating Inbox...", "Initializing Inbox" or "No Domains Available"), then the inbox view,
  whose message panel is loading, then error, then "data format error" for a non-array payload,
  then empty, then the list;
- the **countdown presentation**: the `mm:ss` badge, its green/yellow/red tier at 1800 and 600
  seconds, the progress bar and the condition under which both are shown.

Modules, one per concern of the component:

| file | module | what |
|---|---|---|
| wrappers.dfy | `Wrappers` | `Option`, and JavaScript's `s \|\| fallback` on optional strings |
| domains.dfy | `Domains` | domains and the eligibility filter `isActive && !isPrivate` |
| provisioning.dfy | `Provisioning` | the auto-create decision and its behaviour over many effect runs |
| countdown.dfy | `Countdown` | the countdown as values: arming, the guarded tick, event sequences |
| expiry_timer.dfy | `InboxTimer` | the class `ExpiryTimer` with the two state fields the effects update in place and a ghost log of issued actions |
| display.dfy | `Display` | `mm:ss` text and its parser, tiers, progress, badge visibility |
| render.dfy | `Render` | page, heading, message panel and message rows |
| scenarios.dfy | `Scenarios` | the one-hour and 500-second sessions, a catalogue with nothing usable, an object payload |

Time is integer milliseconds; `now` is a parameter of arming. Each call of the interval callback
is one `Tick` (one `Second` event). The countdown effect lists `timer` among its dependencies, so
it is torn down and re-installed after every tick: the guard of line 62 is therefore evaluated
before each callback, which is how `Countdown.Step` and `ExpiryTimer.Tick` are written. The
actions the component issues into the hook and the toast library are recorded, not executed:
`Effect.DeleteInbox` and `Effect.ExpiryToast` in the ghost log `effects`, a counter
`sessionDeletions` whose invariant is "at most one expiry deletion since the last arming".

Three behaviours of the code worth knowing, each proved of the model:

- the progress percentage (line 230) is clamped at 0 only, not at 100: an expiry more than an
  hour away gives more than 100 (`Display.Progress`);
- arming with less than one second left (lines 51-53) latches `timerExpired` at once, so the countdown never
  runs and the expiry deletion is never issued by the component for that session
  (`Countdown.PastExpiryNeverFires`), although the header then says "Inbox deleted (timer expired)";
- with `isCreating` set and no eligible domain the heading (line 194) says "Creating Inbox..." while the body
  (line 199) says that no email domains are available (`Render.HeadingChoice`).

## Model

| member | source | states |
|---|---|---|
| `Wrappers.OrElse` | src/components/InboxManager.tsx:169 | the fallback is shown exactly when the message is absent, empty or the fallback itself; otherwise the message is shown |
| `Domains.IsEligible` | src/components/InboxManager.tsx:106 | the filter predicate `d.isActive && !d.isPrivate`, used again at line 184 (a predicate; `Domains.EligibleDomains` and `Provisioning.ShouldAutoCreate` state its use) |
| `Domains.EligibleDomains` | src/components/InboxManager.tsx:106 | the filter returns only eligible catalogue domains, keeps every eligible one, is non-empty exactly when some domain is eligible, and keeps all exactly when all are eligible |
| `Domains.EligibleDomainsOfConcat` | src/components/InboxManager.tsx:106 | the filter distributes over concatenation, so it keeps catalogue order |
| `Provisioning.ShouldAutoCreate` | src/components/InboxManager.tsx:104-114 | `createInbox()` is called exactly when not authenticated, not creating, domains loaded, no domain error, and some listed domain is active and not private |
| `Provisioning.NoEligibleDomainNeverCreates` | src/components/InboxManager.tsx:105-112 | over any number of effect runs whose lists are absent, empty or without an eligible domain, no create call is made |
| `Provisioning.CreatingNeverCreatesAgain` | src/components/InboxManager.tsx:105 | over any number of effect runs while a creation is in flight, no second create call is made |
| `Provisioning.CreateCallsBounded` | src/components/InboxManager.tsx:104-114 | at most one create call per effect run, and a create call implies some run met every condition |
| `Countdown.SecondsLeft` | src/components/InboxManager.tsx:51 | whole seconds left, rounded down, and zero exactly when less than one second is left |
| `Countdown.Initialized` | src/components/InboxManager.tsx:48-58 | arming an authenticated, unexpired session with an expiry sets the timer to the whole seconds left, `SecondsLeft(expiresAt, now)`, never negative; the latch is set exactly when armed with less than a second left; without an expiry, authentication or with server expiry the state is (0, false) |
| `Countdown.OnInterval` | src/components/InboxManager.tsx:65-74 | the callback fires the expiry actions exactly when the timer was at most 1, and the state is then (0, true); otherwise it decrements and leaves the latch |
| `Countdown.Step` | src/components/InboxManager.tsx:61-78 | one second fires exactly when the five-way guard holds and the timer is 1; afterwards the state is (0, true) and no tick is enabled for any session flags; an enabled non-firing tick decrements by one; a disabled tick changes nothing; the timer stays non-negative |
| `Countdown.TickEnabled` | src/components/InboxManager.tsx:62 | the interval is installed unless unauthenticated, server-expired, deleting, latched or at zero (a predicate; `Countdown.Step` and `Display.ShownExactlyWhenTicking` state its consequences) |
| `Countdown.NeverNegative` | src/components/InboxManager.tsx:65-73 | from a non-negative timer, any sequence of armings and seconds keeps it non-negative |
| `Countdown.DormantStaysDormant` | src/components/InboxManager.tsx:62 | a latched or zero countdown is unchanged and fires nothing over any seconds until re-armed |
| `Countdown.FiresAtMostOncePerArm` | src/components/InboxManager.tsx:62-73 | over any event sequence, the expiry actions fire at most once per arming, plus once if the start state was not latched |
| `Countdown.FiresAtMostOnce` | src/components/InboxManager.tsx:68-69 | between two armings the deletion fires at most once, and never after the latch is set |
| `Countdown.CountdownRunsOut` | src/components/InboxManager.tsx:64-75 | a live countdown from t counts down by one each second without firing, and after t seconds is (0, true) having fired exactly once |
| `Countdown.PastExpiryNeverFires` | src/components/InboxManager.tsx:49-53 | arming with less than a second left gives (0, true) and no later second fires the deletion |
| `InboxTimer.ExpiryTimer.constructor` | src/components/InboxManager.tsx:23-24 | the component starts at (0, false) with no actions issued |
| `InboxTimer.ExpiryTimer.Init` | src/components/InboxManager.tsx:48-58 | the fields become `Countdown.Initialized` of the inputs, no action is issued, and the per-session deletion count restarts |
| `InboxTimer.ExpiryTimer.Tick` | src/components/InboxManager.tsx:61-78 | the fields and the fired flag are `Countdown.Step` of the old fields; a firing appends exactly one deletion and one toast to the log and is the first deletion since arming; the invariant keeps the timer non-negative and at most one deletion per session |
| `InboxTimer.TwoSecondSession` | src/components/InboxManager.tsx:48-78 | an object armed with two seconds left does not fire on the first tick, fires on the second and not on the third; the object then holds (0, true) and its log exactly one deletion followed by one toast |
| `Display.Decimal` | src/components/InboxManager.tsx:252 | `toString()` of a non-negative integer: at least one digit, all decimal digits, one digit exactly below 10, no leading zero |
| `Display.DecimalRoundTrip` | src/components/InboxManager.tsx:252 | reading the digits back gives the number |
| `Display.LeadingZeros` | src/components/InboxManager.tsx:252-254 | zeros in front of a digit string do not change its value |
| `Display.PadStart2` | src/components/InboxManager.tsx:252-254 | `padStart(2, '0')` keeps the string as the suffix, fills the front with zeros, and has length two unless the string was longer |
| `Display.PadStart2Value` | src/components/InboxManager.tsx:252-254 | a padded digit string has the same value |
| `Display.Field` | src/components/InboxManager.tsx:252-254 | a padded field has at least two digits, exactly two below 100, and reads back as the number |
| `Display.FormatCountdown` | src/components/InboxManager.tsx:252-254 | the badge text: the padded whole minutes, a colon, the padded remaining seconds (a plain function; what it promises is stated by the three lemmas below and `Display.CountdownRoundTrip`) |
| `Display.CountdownFields` | src/components/InboxManager.tsx:252-254 | the badge text is minutes, a colon and exactly two seconds digits; the minutes read back as `timer / 60` and the seconds as `timer % 60`, which is below 60 |
| `Display.ParsedFields` | src/components/InboxManager.tsx:252-254 | any `mm:ss` text that reads as a number of seconds carries that number's whole minutes and remaining seconds in its two fields |
| `Display.ClockDigits` | src/components/InboxManager.tsx:252-254 | below 100 minutes the badge text is exactly five characters: the two digits of the whole minutes, a colon and the two digits of the remaining seconds |
| `Display.CountdownRoundTrip` | src/components/InboxManager.tsx:252-254 | parsing the badge text gives back the timer |
| `Display.CountdownTextInjective` | src/components/InboxManager.tsx:252-254 | two different timers never show the same text |
| `Display.TierOf` | src/components/InboxManager.tsx:244-248 | high exactly above 1800 seconds, mid exactly in (600, 1800], low exactly at or below 600 |
| `Display.TierMonotone` | src/components/InboxManager.tsx:265-269 | less time left is never a milder tier |
| `Display.Progress` | src/components/InboxManager.tsx:229-230 | the percentage is never negative, is `timer * 100 / 3600` for a non-negative timer, exceeds 100 exactly when the timer exceeds 3600 and is 0 exactly for a non-positive timer |
| `Display.CountdownShown` | src/components/InboxManager.tsx:241 | the guard `isAuthenticated && !isExpired && !timerExpired && timer > 0` shared by the badge and, at line 258, the progress bar (a predicate; `Display.BadgeFor` and `Display.ShownExactlyWhenTicking` state its use) |
| `Display.BadgeFor` | src/components/InboxManager.tsx:241-273 | a badge exists exactly under the visibility condition; its text is `FormatCountdown` of the timer, which parses back as the timer; its tier is the timer's tier; its bar is `Progress` of the timer and not empty |
| `Display.ShownExactlyWhenTicking` | src/components/InboxManager.tsx:241 | the badge is visible with no deletion in flight exactly when the tick guard holds |
| `Render.SenderLabel` | src/components/InboxManager.tsx:454 | a non-empty sender name wins; else a non-empty address; else "Unknown sender"; the label is never empty |
| `Render.RowOf` | src/components/InboxManager.tsx:443-470 | the key is the id, or `message-<index>` without a non-empty id, and never empty; the sender is the sender label; the subject is the message's non-empty subject or "(No subject)"; the intro is shown exactly when non-empty; the time is unknown exactly without a non-empty timestamp and is otherwise relative to that timestamp; the unread dot shows exactly for unseen messages |
| `Render.FallbackKeysDistinct` | src/components/InboxManager.tsx:444 | rows at different positions without an id get different keys |
| `Render.Rows` | src/components/InboxManager.tsx:440 | `messages.map` over the delivered order (the comprehension; `Render.ListShowsEveryMessage` states it) |
| `Render.CountLabel` | src/components/InboxManager.tsx:370 | the count is shown exactly for a non-empty array, and is its length |
| `Render.HasActiveDomains` | src/components/InboxManager.tsx:184-185 | true exactly when a catalogue is present and some domain in it is eligible |
| `Render.HeadingFor` | src/components/InboxManager.tsx:194 | the heading chain: creating, else initializing with an eligible domain, else no domains (`Render.HeadingChoice` states it as iffs) |
| `Render.PanelOf` | src/components/InboxManager.tsx:389-438 | the message-panel chain (`Render.PanelPrecedence` and `Render.NonArrayNeverListed` state it) |
| `Render.PageOf` | src/components/InboxManager.tsx:129-226 | the page chain (`Render.PagePrecedence`, `Render.LoadingDomainsBeatsAll`, `Render.DomainErrorBeatsSession` and `Render.HeadingChoice` state it) |
| `Render.PanelPrecedence` | src/components/InboxManager.tsx:389-438 | the message panel is loading, else error, else format error for a non-array, else empty for an empty array, else the list; each state exactly under its condition |
| `Render.NonArrayNeverListed` | src/components/InboxManager.tsx:412-427 | a non-array payload never reaches the empty or list state, and past loading and error gives the format error with its type name |
| `Render.ListShowsEveryMessage` | src/components/InboxManager.tsx:438-485 | the list has one row per message, in order, each derived from its own message and index |
| `Render.LoadingDomainsBeatsAll` | src/components/InboxManager.tsx:129-151 | while domains load the page is the loading page whatever else the snapshot or timer holds |
| `Render.DomainErrorBeatsSession` | src/components/InboxManager.tsx:153-181 | a domain error page depends only on the error message, not on session, messages or timer |
| `Render.PagePrecedence` | src/components/InboxManager.tsx:129-226 | loading, domain error, no inbox (unauthenticated or no account) and inbox view, each exactly under its condition |
| `Render.InboxViewFields` | src/components/InboxManager.tsx:165-402 | the inbox view shows the account address, the server-expiry notice exactly when expired, the deleted notice exactly when latched, refresh disabled exactly while messages load, delete disabled exactly while deleting, and the count label; the domain-error and message-error texts fall back to "Unable to fetch available domains" and "Unknown error occurred" |
| `Render.HeadingChoice` | src/components/InboxManager.tsx:183-221 | without an inbox the heading is "Creating Inbox..." exactly while creating, "Initializing Inbox" exactly when not creating with an eligible domain, "No Domains Available" otherwise; the refusal body shows exactly without an eligible domain |
| `Render.InitializingMeansProvisioning` | src/components/InboxManager.tsx:183-194 | whenever the auto-create effect requests an inbox the page reads "Initializing Inbox", and an unauthenticated "Initializing Inbox" page always comes with a request |
| `Render.InboxBadge` | src/components/InboxManager.tsx:241-278 | in the inbox view the badge shows exactly when not server-expired, not latched and the timer positive; its text is `FormatCountdown` of the timer and reads back as the timer; the "deleted" notice excludes it |
| `Scenarios.ArmedWith` | src/components/InboxManager.tsx:51 | arming with a whole number of seconds left starts the countdown at that number, unlatched |
| `Scenarios.OneHourSession` | src/components/InboxManager.tsx:229-254 | an hour left shows "60:00", tier high, progress 100 |
| `Scenarios.FiveHundredSecondSession` | src/components/InboxManager.tsx:48-75 | 500 seconds left gives tier low and "08:20", and after 500 live seconds the countdown is latched at zero having fired exactly once |
| `Scenarios.NoUsableDomains` | src/components/InboxManager.tsx:104-114 | a catalogue of one inactive and one private domain gives no create call and the "No Domains Available" page |
| `Scenarios.ObjectPayload` | src/components/InboxManager.tsx:412-427 | an object where the messages array belongs gives the format-error panel |

## Left out

- Markup, styling, icons, the debug panel and its `showDebug` toggle (lines 22, 282, 333-362): presentation only.
- `console.log` and `console.warn` diagnostics (lines 81-101, 108, 111, 124, 441): no effect on state.
- `handleDeleteMessage` (lines 116-121) stops the click from opening the message and, after a browser `confirm()` dialog, calls the hook's `deleteMessage`; `handleRefresh` (lines 123-126) logs and calls `refetchMessages`. Both only forward to the hook (`src/hooks/useInbox`), which is not part of this model, and `confirm()` is a browser dialog. The "Retry" (line 172) and "Refresh Page" (line 215) buttons' `window.location.reload()` reloads the page and is not modelled.
- The hook's operations `createInbox`, `deleteInbox`, `deleteMessage`, `refetchMessages` and `copyToClipboard`: their code is not part of this model, so the model records that they are called (create calls counted, expiry deletions logged) and claims nothing about what they do; the hook's flags (`isAuthenticated`, `isCreating`, `isDeleting`, ...) are inputs.
- Real-time scheduling: `setInterval`/`clearInterval` and React's effect scheduling become one `Tick` per second under the guard; a callback landing between a render and the effect's cleanup, and strict-mode double invocation of the `setTimer` updater, are not modelled.
- `new Date()` becomes the parameter `now`; timestamps are integer milliseconds, so floating-point division and an invalid date (`NaN`) are not modelled.
- `toast.error` (react-hot-toast) is the logged `ExpiryToast` action; `formatDistanceToNow` (date-fns) is kept symbolic as `Relative(createdAt)`.
- Display.Progress: computes in exact reals, not in double-precision floating point.
- Render.CountLabel: treats every non-array payload as having no `length`; a string payload, whose `length` JavaScript would show as a count, is not modelled.
- A `null` or `undefined` `messages` value: line 370 reads `messages.length` before the `Array.isArray` test at line 412 and would throw; the model's payload is always an array or some other non-null value.
