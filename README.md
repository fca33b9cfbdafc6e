# Balance widget — a verified model

The widget is a small browser extension script (`scripts.js`). It shows the
credit balance of an API account in a side panel. It keeps one `settings`
record (API key, auto-refresh flag, refresh period in seconds, last balance)
and one `refreshTimer` handle:

- `loadSettings` merges the host's saved record over the defaults.
- `saveSettings` reads the menu's three fields, derives the period with
  `Math.max(60, parseInt(v) || 900)`, persists the record with the key
  `btoa`-encoded, decodes the key back in memory and restarts the timer.
- `startAutoRefresh` cancels the old timer and arms a new one when
  auto-refresh is on; the `unload` hook cancels it.
- `checkBalance` sends the `atob`-decoded key as a bearer token, copies
  the four provider fields into `lastBalance` and writes them into the
  panel, falling back to `'N/A'`.

The model is organised in these modules:

- `Wrappers` — `Option`.
- `Base64Digits`, `Base64` — `btoa` and `atob`: the base64 alphabet and
  padding of section 4 of RFC 4648, with the forgiving decoder of the WHATWG
  Infra standard (ASCII whitespace removed, one or two trailing `=`
  dropped). `btoa` throws on a character above U+00FF; `atob` throws on a
  character outside the alphabet or a length of 1 modulo 4.
- `JsParseInt` — `parseInt` without a radix argument, as section 19.2.5
  of ECMA-262 defines it, including the `0x` prefix.
- `Balances` — JavaScript values and truthiness, the balance record, the
  reply of the billing endpoint, and the panel rendering.
- `Config` (with `IntervalExamples`) — the settings record, its defaults,
  the load merge and the interval rule.
- `Timers` — the host's `setInterval` handles and the conversion of the
  timeout to a WebIDL `long`.
- `BalanceWidget` — the class `Widget`, holding the module-level state and
  the handlers as methods, plus `BearerHeader`.
- `Findings` — two defects of the code, as written and corrected.

The host's settings slot is the field `store`. The panel is the field
`page`, a map from the selector of each element present to what it shows.
The outcome of `fetch` is the parameter `reply` of `CheckBalance`. The form
values are the parameters of `SaveSettings`. The set of timers the host
has armed is the ghost field `armed`.

Where the code and the widget's documented behaviour differ, the model
follows the code:

- A period below 60 that parses, such as `"30"` or `"45"`, becomes 60, not
  900. Only `NaN` and 0 fall back to 900.
- `loadSettings` applies no clamp, so a stored period can be below 60.
- A balance field that is 0 is shown as `'N/A'`, like a missing one.
- Saving does not re-render the panel.
- Saving does not fetch at once. The first fetch happens when the timer
  first fires.
- The period has no upper bound (see Findings).

## Model

| member | source | states |
|---|---|---|
| `Base64.Btoa` | scripts.js:143 | `btoa` succeeds exactly on strings whose characters are all at most U+00FF |
| `Base64.Atob` | scripts.js:147 | a successful `atob` yields only characters at most U+00FF |
| `Base64.RoundTrip` | scripts.js:143-147 | for every Latin-1 key, `atob(btoa(k))` succeeds and gives back `k`, so the in-memory key after a save is the key typed |
| `Base64.EncodeLength` | scripts.js:143 | the encoded key is a whole number of four-character groups, and its unpadded part never leaves remainder 1 |
| `Base64.DecodeEncodeGroups` | scripts.js:143-147 | decoding the unpadded groups of an encoding restores the input |
| `Base64.ForeignCharacterFails` | scripts.js:82 | `atob` throws on any string holding a character that is not in the alphabet, not `=` and not whitespace |
| `Base64.AtobShrinks` | scripts.js:82 | a non-empty string decodes to something strictly shorter, so no key decodes to itself |
| `JsParseInt.TrimStart` | scripts.js:140 | the leading white space is removed, all of it and nothing else |
| `JsParseInt.DigitPrefixLength` | scripts.js:140 | the digit run is the longest prefix of digits of the radix |
| `JsParseInt.DecimalString` | scripts.js:140 | the decimal numeral of `n` has only digits, no leading zero and denotes `n` |
| `JsParseInt.ParseInt` | scripts.js:140 | a negative result comes only from a leading `-`, and a leading `-` never gives a positive result; its value on every input is stated by `ParseIntOfDecimal`, `ParseIntOfHex`, `EmptyHexIsNaN` and `NotNumeralIsNaN` |
| `JsParseInt.ParseIntOfDecimal` | scripts.js:140 | white space, an optional sign, any run of decimal digits (leading zeros included) and a tail that does not extend the run parse to the run's value, negated after `-` |
| `JsParseInt.SignedValueOf` | scripts.js:140 | a leading `-` negates the value and a leading `+` leaves it |
| `JsParseInt.ParseIntOfHex` | scripts.js:140 | after white space and an optional sign, `0x` or `0X` and a run of hexadecimal digits parse to the run's value in radix 16, negated after `-` |
| `JsParseInt.EmptyHexIsNaN` | scripts.js:140 | `0x` or `0X` with no hexadecimal digit after it parses to `NaN` |
| `JsParseInt.NotNumeralIsNaN` | scripts.js:140 | a string whose part after white space and one optional sign is empty or starts with a non-digit, such as `".5"`, parses to `NaN` |
| `JsParseInt.NoDigitIsNaN` | scripts.js:140 | a string with no decimal digit parses to `NaN` |
| `JsParseInt.HexPrefixExample` | scripts.js:140 | a `0x` prefix switches to radix 16: `"0x1F"` is 31 |
| `Balances.Cell` | scripts.js:117 | an element always shows a truthy value: the field of `lastBalance` or `'N/A'` |
| `Balances.CellShowsTruthyField` | scripts.js:117 | a truthy field is shown as it is |
| `Balances.CellFallsBack` | scripts.js:117 | no balance, or a falsy field, shows `'N/A'` |
| `Balances.ZeroShowsNotAvailable` | scripts.js:117 | a remaining balance of 0 shows the same `'N/A'` as no balance |
| `Balances.RenderSlotsEffect` | scripts.js:114-119 | after the first `n` elements are visited, the present ones among them show their cells, all other elements are unchanged and none is added |
| `Balances.RenderSlots` | scripts.js:114-119 | visiting the slots adds and removes no element; what the visited ones show is stated by `RenderSlotsEffect` |
| `Balances.Render` | scripts.js:114-119 | the same elements stay present, and each of the four that is present shows its field's cell; the rest is stated by `RenderKeepsRest` and `RenderIdempotent` |
| `Balances.RenderKeepsRest` | scripts.js:114-119 | elements other than the four are untouched |
| `Balances.RenderIdempotent` | scripts.js:106-120 | updating the display twice with the same balance equals updating it once |
| `Balances.BalanceOf` | scripts.js:90-95 | under each provider field name, the balance carries what the reply held there, or `undefined` when the reply lacks it; its inverse is stated by `BalanceOfProviderFields` and `BalanceOfIgnoresOthers` |
| `Balances.BalanceOfProviderFields` | scripts.js:90-95 | `total`, `used`, `remaining` and `expiry` are taken from `total_credits`, `used_credits`, `remaining_credits` and `expiry_date` |
| `Balances.BalanceOfIgnoresOthers` | scripts.js:90-95 | no other field of the reply affects the balance |
| `Balances.Outcome` | scripts.js:79-103 | a reply yields a balance exactly when it is a response with status 200-299 whose body is JSON other than `null`, and then it is the mapped provider fields |
| `Config.Overlay` | scripts.js:132 | each field present in the saved record is loaded as saved; a loaded record gives settings that record back to it exactly when it has every field; absent fields are stated by `OverlayMissingFields` |
| `Config.Record` | scripts.js:145 | the persisted record has every field of the settings; `OverlayRecord` states that loading it gives them back |
| `Config.OverlayRecord` | scripts.js:129-134 | loading a persisted record gives back exactly the settings persisted |
| `Config.OverlayMissingFields` | scripts.js:129-134 | a field absent from the saved record keeps its default, and an empty record loads as the defaults |
| `Config.OverlayKeepsInterval` | scripts.js:129-134 | a saved period is loaded as it is, without any clamp |
| `Config.EffectiveInterval` | scripts.js:139-140 | `NaN` and 0 give 900; any other parsed value `n` gives `n` raised to at least 60 |
| `Config.IntervalOfNumeral` | scripts.js:139-140 | a decimal digit run, leading zeros allowed, gives 900 when its value is zero, 60 when negative or below 60, and its value otherwise |
| `Config.IntervalOfNonNumeral` | scripts.js:139-140 | input that does not start with a digit after white space and one optional sign gives 900 |
| `Config.IntervalOfNonNumeric` | scripts.js:139-140 | input with no digit gives 900 |
| `IntervalExamples.Thirty` | scripts.js:139-140 | `"30"` gives 60 |
| `IntervalExamples.FortyFive` | scripts.js:139-140 | `"45"` gives 60 |
| `IntervalExamples.MinusFive` | scripts.js:139-140 | `"-5"` gives 60 |
| `IntervalExamples.OneTwenty` | scripts.js:139-140 | `"120"` gives 120 |
| `IntervalExamples.Zero` | scripts.js:139-140 | `"0"` gives 900 |
| `IntervalExamples.Letters` | scripts.js:139-140 | `"abc"` gives 900 |
| `IntervalExamples.LeadingZero` | scripts.js:139-140 | `"0120"` gives 120 |
| `IntervalExamples.HalfWithoutZero` | scripts.js:139-140 | `".5"` gives 900 |
| `IntervalExamples.Empty` | scripts.js:139-140 | an empty field gives 900 |
| `Timers.ToInt32` | scripts.js:125 | the timeout is taken modulo 2^32 into the signed 32-bit range |
| `Timers.HostDelay` | scripts.js:125 | the host waits a non-negative delay below 2^31 ms, equal to the period whenever the period is in that range |
| `Timers.WrappedPeriodFiresAtOnce` | scripts.js:125 | periods from 2^31 to 2^32 ms are waited as 0 ms |
| `BalanceWidget.BearerHeader` | scripts.js:74-82 | a header is sent exactly when the key is non-empty and `atob` accepts it, and it is then `Bearer ` followed by the `atob` of the key |
| `BalanceWidget.Widget.constructor` | scripts.js:2-10 | the widget starts with a copy of the defaults and no timer |
| `BalanceWidget.Widget.CancelTimer` | scripts.js:123 | `clearInterval` leaves no timer armed and ignores a missing or stale handle |
| `BalanceWidget.Widget.StartAutoRefresh` | scripts.js:122-127 | the previous timer is cancelled; with auto-refresh on, exactly one new timer with period `refreshInterval * 1000` is armed and becomes `refreshTimer`; otherwise none is armed and `refreshTimer` keeps the stale handle |
| `BalanceWidget.Widget.Unload` | scripts.js:24-27 | after unloading no timer is armed |
| `BalanceWidget.Widget.LoadSettings` | scripts.js:129-134 | with a saved record, `settings` becomes the record merged over the defaults; without one, it is unchanged |
| `BalanceWidget.Widget.Init` | scripts.js:12-16 | settings are loaded, then the timer is restarted from them |
| `BalanceWidget.Widget.SaveSettings` | scripts.js:136-150 | the in-memory settings take the typed key, flag and derived period; when `btoa` succeeds, the record persisted holds the encoded key and otherwise these settings, and the timer is restarted; when it throws, neither storage nor the timer changes |
| `BalanceWidget.Widget.UpdateBalanceDisplay` | scripts.js:106-120 | the panel becomes the rendering of `lastBalance` over the panel as it was |
| `BalanceWidget.Widget.CheckBalance` | scripts.js:73-104 | the header value handed to `fetch` is the bearer header of the memory key, or none is made; a successful reply replaces `lastBalance` and the panel and is returned; otherwise `null` is returned and nothing changes; storage is never written |
| `BalanceWidget.AtMostOneTimer` | scripts.js:122-127 | the host never has more than one of the widget's timers armed |
| `BalanceWidget.RestartTwice` | scripts.js:122-127 | restarting twice leaves one timer armed (or none with auto-refresh off), with the configured period, and no earlier timer |
| `Findings.SavedKeyIsNotSent` | scripts.js:143-147 | after a save, the header built from the memory key never carries the key typed, whatever the key |
| `Findings.SkKeyAfterSave` | scripts.js:82 | after saving `"sk-test"`, `atob` throws and no request is made |
| `Findings.LoadedKeyIsSent` | scripts.js:129-134 | after a load, the header carries the key that was saved |
| `Findings.SaveThenCheck` | scripts.js:136-150 | the widget saving a key and then checking never sends that key |
| `Findings.LoadThenCheck` | scripts.js:12-16 | the widget initialised from a record saved with a key sends that key |
| `Findings.LoadFixed` | scripts.js:132 | corrected load: as written on every other field, and the key is the `atob` of the stored key when that succeeds, the stored key otherwise |
| `Findings.BearerHeaderFixed` | scripts.js:82 | corrected header: a header is made exactly when the key is non-empty, and it is `Bearer ` followed by the key as it is |
| `Findings.FixedKeySentOnBothPaths` | scripts.js:143-147 | with the corrections, the key typed is sent both after the save and after loading the saved record |
| `Findings.LongPeriodFiresAtOnce` | scripts.js:139-140 | every numeral from 2147484 to 4294967 is accepted as the period, and the host waits 0 ms for it |
| `Findings.LongPeriodNotHonoured` | scripts.js:125 | no period of 2147484 s or more is waited as configured |
| `Findings.BoundedInterval` | scripts.js:46 | corrected rule: the period lies in 60..86400 and the host waits exactly that long |
| `Findings.BoundedAgreesInRange` | scripts.js:139-140 | within the form's range the corrected rule equals the rule as written |

## Left out

- HTML templates, element lookup and injection (scripts.js:30-70): the panel is modelled only as the map `page` of the elements present. The initial panel text is not modelled, and so neither is `toLocaleDateString`, which is locale-dependent.
- The host API calls `registerExtension`, `registerMenu`, `registerPanel` and `showToast`, and the `window` exports (scripts.js:19-30, 153-154): foreign calls with no effect on the state modelled. `Init` covers loading and the timer only.
- `fetch`, the request URL, the `Content-Type` header and `response.json()` (scripts.js:80-89): network I/O. They are replaced by the `reply` parameter; the model records only the `Authorization` header.
- A JSON body that is a number, string, boolean or array reads every provider field as `undefined`. It is modelled as an object with no fields.
- Timer firing, `async`/`await`, and fetches that overlap when a tick fires during a request: concurrency. A timer is modelled as armed or not, with its period.
- The nested-timer clamp of HTML, which raises delays below 4 ms after five levels of nesting: not modelled.
- `console.error` (scripts.js:100): logging only.
- The storage slot holds a snapshot of the record. A host that kept a reference to the `settings` object would see the later in-memory decoding of the key; this is not modelled.
- Stored fields of the wrong JSON type are not modelled. Neither is a falsy saved value other than `null` or `undefined`.
- Numbers: the period is an unbounded integer. JavaScript rounds `parseInt` results above 2^53, and a long enough digit string gives `Infinity`; neither is modelled. Balance numbers are reals, and JSON has no `NaN`.
- `textContent` converts the shown value to a string; the model keeps the value itself.
- The sanitisation of the number input's value by the browser: any string is accepted as input, which covers every value the browser can produce.
- `BalanceWidget.Widget.CheckBalance`: `request` is the header value handed to `fetch`. Fetch's own header checks are folded into `reply`: it trims surrounding spaces and tabs, and it throws, so that the request is never sent, on a value holding NUL, LF or CR (for a memory key such as `"AAAK"`, which decodes to `"\0\0\n"`). A `reply` that yields a balance for such a header is one the host cannot produce.
- `SaveSettings`: when `btoa` throws, the exception leaves the click handler; the model returns `completed == false` instead.

## Findings

| source | as written | input that shows it | evidently intended | confidence | as-written member | corrected member |
|---|---|---|---|---|---|---|
| scripts.js:147 | After a save, memory holds the plaintext key (line 147); after a load, it holds the `btoa` form (line 132); `checkBalance` always applies `atob` (line 82). | Save the key `"sk-test"`, then refresh: `atob("sk-test")` throws on `-`, so the request is never made and `null` is returned. A key made of base64 characters is instead sent decoded a second time. | Memory always holds the plaintext: decode once on load and send the key as it is. | high, not executed | `Findings.SavedKeyIsNotSent` | `Findings.FixedKeySentOnBothPaths` |
| scripts.js:139-140 | The period has a lower bound but no upper bound, and `refreshInterval * 1000` goes to `setInterval`, whose timeout is a signed 32-bit `long`. | Save the period `"2147484"`: 2147484000 ms is at least 2^31, wraps to a negative `long`, and the timer fires with no delay, calling the billing endpoint continuously. | Keep the period within the form's `max="86400"` (scripts.js:46). | medium, not executed | `Findings.LongPeriodFiresAtOnce` | `Findings.BoundedInterval` |

`BalanceWidget.Widget` models the code as written, so that both defects can be
stated about it (`Findings.SaveThenCheck`, `Findings.LoadThenCheck`). The
corrected definitions are `Findings.LoadFixed`, `Findings.BearerHeaderFixed`
and `Findings.BoundedInterval`.
