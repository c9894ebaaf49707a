# Financing simulator: form input pipeline and simulation arithmetic

This project models the core of a property-financing simulator.

**The form (`Home` in `Frontend/app/page.tsx`).** A user types three values:
- the property price (`valorImovel`);
- the down-payment percentage (`percentualEntrada`);
- the contract term in years (`anosContrato`).

On every keystroke the typed text is normalised:
- The price goes through `formatNumber`. It strips every non-digit, then puts a `.` before each group of three digits counted from the right.
- The percentage keeps its digits, cut to 2 characters.
- The years keep their digits, cut to 1 character.

A validation effect then rebuilds two things from scratch:
- the per-field error messages;
- the `isFormValid` flag.

Submitting does nothing unless the form is valid. A valid submit builds the request `{valor_imovel, percentual_entrada, anos_contrato}` from the stored strings: the price with its dots removed, and the two integers. When the call answers, the result is shown. When it fails, the fields stay as they were. Either way the loading flag ends false. Reset empties the three fields and drops the result.

**The backend (`Backend/main.py`).** `SimulacaoInput` accepts only:
- a positive price;
- a percentage between 5 and 20;
- a term of 1 to 5 years.

`simular` derives four figures from an accepted input:
- the down payment, `price × percentage / 100`;
- the financed amount, `price − down payment`;
- the amount to save, 15 % of the price;
- the monthly instalment, `amount to save / (years × 12)`.

Modules:
- `NumberFormat` (`number_format.dfy`): digit stripping, `formatNumber`, dot removal, the field caps, and the value of a digit string.
- `Simulacao` (`simulacao.dfy`): the backend bounds and arithmetic, over exact `real`s.
- `Page` (`page.dfy`): the form's state as class `Home`, with one method per handler, plus the pure validation and request functions.
- `Wrappers` (`wrappers.dfy`): `Option`.

`formatNumber`'s regular expression `\B(?=(\d{3})+(?!\d))` is modelled by position. On a string of `n` digits it matches at position `i` exactly when `0 < i < n` and `n − i` is a multiple of 3 (`NumberFormat.DotBefore`). `GroupFrom` scans left to right and writes a `.` at each such position. The right-to-left reading, "the last three digits after a dot, behind the grouping of the rest", is proved from it (`FormatSplitsLastGroup`).

The React state hooks (`formData`, `resultado`, `errors`, `isLoading`, `isFormValid`) are the fields of `Page.Home`. The validation effect runs synchronously at the end of every handler that changes `formData` (`Home.ValidateEffect`). `Home.Valid()` is the invariant every handler keeps:
- each field is normalised;
- `errors` is exactly `ValidateForm(formData)`;
- `isFormValid` agrees with both.

`handleSimulate` awaits the network, so other handlers can run while the call is out. It is therefore split in two:
- `StartSimulate`: the guard, setting the loading flag, and the request;
- `FinishSimulate`: applying the answer or the failure, and clearing the loading flag.

`HandleSimulate` runs both in a row. The network call is a parameter: `Received(result)` or `Failed`.

Two things about the handlers are worth knowing:
- `handleSimulate` has no stale-response guard. An answer that arrives after a reset is applied (`FailureThenLateAnswer`).
- `handleSimulate` does not itself refuse a second submit while loading. Only the button's `disabled` attribute prevents one.

The form accepts a price of `0` (for example "0" or "000"), but the backend requires `valor_imovel > 0` and refuses it. `ZeroPricePassesFormOnly` proves this for `"0"`. `ValidFormRequestAccepted` states exactly when a request from a valid form is accepted: when some digit of the price is not `0`. This holds for prices below the float overflow near 1.8 × 10^308 (see "Left out").

## Model

| member | source | states |
|---|---|---|
| `NumberFormat.StripNonDigits` | Frontend/app/page.tsx:24 | the result holds only ASCII digits and is no longer than the input |
| `NumberFormat.StripNonDigitsChar` | Frontend/app/page.tsx:24 | on a single character, a digit is kept and any other character is dropped |
| `NumberFormat.StripNonDigitsAppend` | Frontend/app/page.tsx:24 | stripping keeps or drops each character on its own: it distributes over concatenation |
| `NumberFormat.StripNonDigitsIdempotent` | Frontend/app/page.tsx:24 | stripping an already stripped value changes nothing |
| `NumberFormat.RemoveDots` | Frontend/app/page.tsx:93 | no `.` remains and the result is no longer than the input |
| `NumberFormat.Slice` | Frontend/app/page.tsx:77 | `slice(0, n)` has length `min(n, |s|)` and is a prefix of `s` |
| `NumberFormat.GroupFrom` | Frontend/app/page.tsx:25 | the grouping replace on a digit string, scanning from position `i` and writing a dot wherever `DotBefore` holds; the output is at least as long as the digits scanned |
| `NumberFormat.FormatNumber` | Frontend/app/page.tsx:23-26 | the output holds only digits and dots, and is at least as long as the input's digits |
| `NumberFormat.FormatSplitsLastGroup` | Frontend/app/page.tsx:25 | for more than three digits, the regex-position grouping is the grouping of all but the last three digits, a dot, then those three |
| `NumberFormat.FormatNumberWellGrouped` | Frontend/app/page.tsx:23-26 | the output is empty or a leading group of 1-3 digits followed by groups of a dot and exactly 3 digits |
| `NumberFormat.FormatNumberRemoveDots` | Frontend/app/page.tsx:23-26 | removing every dot from the output gives exactly the input's digits, in order |
| `NumberFormat.FormatNumberEmpty` | Frontend/app/page.tsx:23-26 | the output is empty exactly when the input has no digit |
| `NumberFormat.FormatNumberIdempotent` | Frontend/app/page.tsx:23-26 | formatting a formatted value changes nothing, because the old dots are stripped before regrouping |
| `NumberFormat.SliceOfStripped` | Frontend/app/page.tsx:74-78 | the normalised percentage and years values are digits only, at most `n` long, and a prefix of the input's digits (all of them when there are at most `n`) |
| `NumberFormat.DigitsValue` | Frontend/app/page.tsx:44-45 | the value of a digit string of length `k` is below `10^k`; as `parseInt`, a 2-digit percentage is at most 99 and a 1-digit term at most 9 |
| `NumberFormat.DigitsValueAppend` | Frontend/app/page.tsx:44-45 | positional notation: the value of `a + b` is the value of `a` times `10^|b|` plus the value of `b` |
| `NumberFormat.DigitsValueZero` | Frontend/app/page.tsx:93 | a digit string's value is zero exactly when every digit is `0` |
| `Simulacao.Simular` | Backend/main.py:26-30 | before rounding: the down payment is the price times the percentage over 100; down payment plus financed amount is the price; the down payment is 5-20 % and the financed amount 80-95 % of the price; the amount to save is exactly 15 % of the price; instalment × years × 12 is the amount to save; 0 < instalment ≤ amount to save / 12; all four figures are positive |
| `Simulacao.PostSimulacao` | Backend/main.py:14-17 | an answer exists exactly when the body meets `Accepts` (the `SimulacaoInput` bounds: price positive, percentage in [5, 20], term in [1, 5]), and that answer is `Simular(data)` |
| `Simulacao.TotalDependsOnPriceOnly` | Backend/main.py:29 | the amount to save does not depend on the percentage or the term |
| `Simulacao.LongerTermSmallerInstalment` | Backend/main.py:30 | for the same price, a longer term gives a strictly smaller instalment |
| `Simulacao.LargerDownPaymentLessFinanced` | Backend/main.py:27-28 | for the same price, a larger percentage gives a larger down payment and a smaller financed amount |
| `Page.Set` | Frontend/app/page.tsx:80 | the named field takes the new value and the other two fields keep theirs |
| `Page.Normalize` | Frontend/app/page.tsx:70-78 | price: a `formatNumber` fixpoint, well grouped, whose dots removed (or non-digits stripped) give the typed digits; percentage and years: digits only, a prefix of the typed digits, exactly as long as the typed digits or the cap (`MaxLength`: 2 and 1), whichever is smaller |
| `Page.ValidateForm` | Frontend/app/page.tsx:43-55 | a percentage error exists iff the field is non-empty and its value is outside [5, 20], and a years error iff the field is non-empty and its value is outside [1, 5]; each carries its fixed message |
| `Page.FormValidIff` | Frontend/app/page.tsx:56-61 | `FormIsValid` (the `isFormValid` expression) holds iff all three fields are non-empty, the percentage is in [5, 20] and the term is in [1, 5] |
| `Page.BuildRequest` | Frontend/app/page.tsx:92-96 | `valor_imovel` is the integer value of the price field's digits; the percentage and term sent are the integer values of their fields, and they are in [5, 20] and [1, 5] |
| `Page.ValidFormRequestAccepted` | Frontend/app/page.tsx:92-96 | the backend accepts a request built from a valid form exactly when the price's value is positive, that is, when some digit of the price is not `0` |
| `Page.ZeroPricePassesFormOnly` | Frontend/app/page.tsx:56-61 | the fields "0", "10", "3" are normalised and valid, yet the backend returns no answer for their request |
| `Page.TypedValuesRequest` | Frontend/app/page.tsx:72-96 | typing "400000", "10", "3" stores "400.000", "10", "3", makes the form valid, and sends {400000, 10, 3} |
| `Page.OutOfRangeMessages` | Frontend/app/page.tsx:47-53 | a percentage of 25 and a term of 0 each get their message, and the form is invalid |
| `Page.Home.constructor` | Frontend/app/page.tsx:30-39 | the form starts empty, with no result, no errors, not loading and not valid |
| `Page.Home.ValidateEffect` | Frontend/app/page.tsx:41-65 | the errors are rebuilt from the current fields alone, and the flag is recomputed from fields and errors |
| `Page.Home.HandleChange` | Frontend/app/page.tsx:67-81 | only the named field changes, to its normalised value; errors and flag are recomputed; result and loading flag are untouched |
| `Page.Home.StartSimulate` | Frontend/app/page.tsx:83-97 | when the form is invalid nothing changes and nothing is sent; otherwise loading starts and the request is built from the stored fields |
| `Page.Home.FinishSimulate` | Frontend/app/page.tsx:99-108 | an answer becomes the result; a failure keeps the previous result; the fields and errors are unchanged and loading ends false |
| `Page.Home.HandleSimulate` | Frontend/app/page.tsx:83-109 | a no-op on an invalid form; otherwise the request is sent, the form data is unchanged, loading ends false, and the result is the answer or is unchanged on failure |
| `Page.Home.HandleReset` | Frontend/app/page.tsx:111-118 | all three fields are empty and there is no result; the recomputed errors are empty and the form is invalid; loading is untouched |
| `Page.FailureThenLateAnswer` | Frontend/app/page.tsx:99-118 | for any typed values that make the form valid: after a failed call the fields are what was typed and loading is off; an answer that arrives after a reset is shown over the empty form |

## Left out

- Layout, the framer-motion animation, `Image`, the `Loader2` spinner and `window.print()` (page.tsx:120-305) are presentation. This includes the `disabled` attributes that lock the inputs and the button while loading. The handlers themselves do not check `isLoading`, and neither does the model.
- `fetch`, `response.json()`, `console.error` and `alert` are I/O. The call is the parameter `Response`: `Received(result)` or `Failed`. The answer's body is taken as it comes.
- The `API_URL` environment setting is configuration.
- The currency display, `toLocaleString("pt-BR", {style: "currency"})` (page.tsx:324-327), is a locale library call on floats.
- React's effect scheduling and `setState` batching are framework behaviour. The validation effect is modelled as running synchronously after each change.
- The FastAPI app, the CORS middleware, pydantic's parsing and coercion, and the HTTP error response are plumbing. A rejected body is `None` in `PostSimulacao`.
- Simulacao.Simular: returns the exact figures. The final `round(x, 2)` and IEEE float behaviour (main.py:33-36) are not modelled, so every relation it states is the one before rounding.
- Page.BuildRequest: `parseFloat` and `parseInt` are exact integer values of the digit strings. Float precision loss for prices above 2^53 is not modelled. Neither is overflow: the price field has no length cap, and from about 1.8 × 10^308 `parseFloat` gives `Infinity`. `JSON.stringify` sends that as `null`, which the backend refuses. The model sends the exact value instead.
- Page.ValidFormRequestAccepted: its "accepted exactly when" holds only for prices below about 1.8 × 10^308. Above that, the real request carries `null` and is refused.
- Page.ValidateForm: requires the two bounded fields to be digit strings. The form only ever stores normalised values (`Home.Valid()`), so `parseInt` on signs, spaces or text (`NaN`) never happens and is not modelled.
