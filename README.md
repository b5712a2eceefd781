# Store-credit ledger of solidus_virtual_gift_card, in Dafny

This project models `Spree::StoreCredit`, the balance a gift card turns into once it is
redeemed. A store credit has a total `amount`, an `amount_used`, an `amount_authorized` and a
`currency`. Around them sit three more parts: an event log (`store_credit_events`), an
`errors` list, and three scratch attributes (`action`, `authorization_code`,
`action_amount`). An operation sets the scratch attributes before it saves. They are never
cleared afterwards.

Payment processing reaches the balance through four verbs:

- **authorize** places a hold. A code that already has an authorize event is a replay.
- **capture** re-runs authorize, then moves the amount from authorized to used.
- **void** releases the amount recorded on the code's authorize event.
- **credit** gives back up to the amount of the code's capture event.

Every change goes through `update_attributes!`. That call validates first. Validation
requires a positive total, a used amount between zero and the total, and used plus
authorized within the total. An invalid update raises and stores nothing. A valid one runs
the `store_event` after-save hook, which writes one event for each save that changes an
amount (or whose action is `eligible`). A save with no action set rewrites the first
allocation event in place, or adds one when the log has none.

Money is a whole number of cents (`int`). The files are:

- `ledger.dfy` (module `Ledger`): the record value, the validations, `amount_remaining`,
  the event lookups, the hook, the save gate, creation and the four verbs, all as functions.
  Each returns the new record and the Ruby result: a code, `true`, `false`, or a raised
  `RecordInvalid`.
- `store_credit.dfy` (module `StoreCredits`): class `StoreCredit`, holding the same fields
  and updating them in place. Each method is proved to produce exactly the state and
  result of the matching `Ledger` function, and to keep the validated invariant.
- `ledger_properties.dfy` (module `LedgerProperties`): what each verb promises, and what it
  does not.
- `history.dfy` (module `History`): any sequence of calls keeps the invariant. The log is
  append-only except for the allocation event.
- `capabilities.dfy` (module `PaymentCapabilities`): `can_capture?`, `can_void?` and
  `can_credit?` over the paying payment.
- `scenarios.dfy` (module `Scenarios`): worked histories with every state written out.

Three behaviours of the code are easy to miss, and the model keeps each of them:

- **A credit does not consume the capture event.** `credit` only looks the capture event up
  (app/models/spree/store_credit.rb:100). Repeated credits on one code are therefore bounded
  only by the `amount_used >= 0` validation (app/models/spree/store_credit.rb:19, 105-107).
  They succeed while the used amount covers them, including used amount from other codes'
  captures, so a code can be credited more than it captured
  (`LedgerProperties.RepeatedCreditWhileUsedCovers`). They raise once the used amount would
  go negative (`Scenarios.CreditAgainRaises`).
- **The authorized amount can go negative.** No validation bounds `amount_authorized` from
  below (app/models/spree/store_credit.rb:18-21). Each void subtracts the recorded hold
  again, so a repeated void drives it negative (app/models/spree/store_credit.rb:88-91;
  `LedgerProperties.VoidTwiceReleasesTwice`, `Scenarios.VoidFortyAgain`).
- **Capture checks the record-wide authorized amount, not this code's hold.** The test at
  app/models/spree/store_credit.rb:72 compares with `amount_authorized`. A repeated capture
  on one code is refused only when the holds of other codes do not cover it
  (`LedgerProperties.SecondCaptureRefused`); otherwise it succeeds and spends them
  (`LedgerProperties.SecondCaptureSpendsOtherHold`). Once the authorized amount is
  negative, capture can also return `false` after its authorize step has already stored a
  hold and an event (`LedgerProperties.FreshCaptureRefusedKeepsHold`,
  `Scenarios.RefusedCaptureKeepsHold`).
  `LedgerProperties.CaptureRefusalChangesOnlyErrors` shows that a refused capture changes
  only the errors while the authorized amount is not negative.

## Model

| member | source | states |
|---|---|---|
| `Ledger.ValidationErrors` | app/models/spree/store_credit.rb:17-21 | the validations add no message exactly when the total is positive, the used amount is in [0, total] and used plus authorized is within the total; each message appears exactly when its own condition fails |
| `Ledger.AmountRemaining` | app/models/spree/store_credit.rb:42-44 | the remaining, used and authorized amounts add up to the total; the remaining amount is non-negative exactly when used plus authorized fits the total, which every valid record satisfies |
| `Ledger.IndexOf` | app/models/spree/store_credit.rb:145 | the first event with the action (and code, when given), or none exactly when no event matches |
| `Ledger.Lookup` | app/models/spree/store_credit.rb:48 | `find_by(action, authorization_code)` returns an event of the log with that action and code, and returns nothing exactly when no such event exists |
| `Ledger.StoreEvent` | app/models/spree/store_credit.rb:139-153 | a save that changes no amount logs nothing unless the action is `eligible`; with an action set, it appends exactly one event carrying the action, `action_amount` (else the total) and the code; the log grows by at most one; every non-allocation event is kept in place |
| `Ledger.Save` | app/models/spree/store_credit.rb:17-30 | `update_attributes!` succeeds exactly when the new amounts pass validation; then the record is valid, holds the new amounts and has no errors; otherwise it raises, the record keeps its amounts and log, and `errors` holds the validation messages |
| `Ledger.SaveFor` | app/models/spree/store_credit.rb:51-52 | a save made for a verb (as at lines 51-52, 77-78, 89-90 and 106-107) keeps the total and currency and sets the scratch attributes to the verb, its code and its amount; it succeeds exactly when the new used and authorized amounts pass validation and then stores them; a raise keeps the old used and authorized amounts and the log |
| `Ledger.Create` | app/models/spree/store_credit.rb:142-152 | creation succeeds exactly for a positive total; the new record holds the given total and currency, zero used and authorized amounts, no errors, no scratch attributes and the single allocation event for the total; a failed creation keeps the given total and currency, stores no event and carries the not-positive message |
| `Ledger.ValidateAuthorization` | app/models/spree/store_credit.rb:60-67 | passes exactly when there are no earlier errors, the amount is at most the remaining amount, and the currency matches; insufficient funds is reported in preference to a currency mismatch |
| `Ledger.Authorize` | app/models/spree/store_credit.rb:46-58 | anything other than `true` happens only when no authorize event has the code; a returned code is the given code; the total and currency never change; the log is unchanged or grows by exactly this authorize event |
| `Ledger.Capture` | app/models/spree/store_credit.rb:69-85 | a returned code is the given code; the total and currency never change; the old log is a prefix of the new one, which has at most two more events |
| `Ledger.Void` | app/models/spree/store_credit.rb:87-96 | returns `false` exactly when no authorize event has the code; the used amount, total and currency never change; the log is unchanged or grows by one void event carrying the recorded authorize amount |
| `Ledger.Credit` | app/models/spree/store_credit.rb:98-113 | returns `false` exactly on a currency mismatch, a missing capture event, or an amount above the captured amount; the authorized amount, total and currency never change; the log is unchanged or grows by one credit event |
| `StoreCredits.StoreCredit.Create` | app/models/spree/store_credit.rb:17-30 | the created object holds what `Ledger.Create` gives and is valid exactly when the total is positive |
| `StoreCredits.StoreCredit.StoreEvent` | app/models/spree/store_credit.rb:139-153 | the hook leaves the log equal to `Ledger.StoreEvent` of the state before the hook |
| `StoreCredits.StoreCredit.UpdateAttributes` | app/models/spree/store_credit.rb:155-167 | the object and result equal `Ledger.Save`; an accepted save leaves the object valid; a raised one leaves the amounts and the log unchanged |
| `StoreCredits.StoreCredit.ValidateAuthorization` | app/models/spree/store_credit.rb:60-67 | pushes the messages of `Ledger.ValidateAuthorization` and passes exactly when there were no earlier errors, the funds suffice and the currency matches |
| `StoreCredits.StoreCredit.Authorize` | app/models/spree/store_credit.rb:46-58 | the object and result equal `Ledger.Authorize` of the old state; a valid object stays valid |
| `StoreCredits.StoreCredit.Capture` | app/models/spree/store_credit.rb:69-85 | the object and result equal `Ledger.Capture` of the old state; a valid object stays valid |
| `StoreCredits.StoreCredit.Void` | app/models/spree/store_credit.rb:87-96 | the object and result equal `Ledger.Void` of the old state; a valid object stays valid |
| `StoreCredits.StoreCredit.Credit` | app/models/spree/store_credit.rb:98-113 | the object and result equal `Ledger.Credit` of the old state; a valid object stays valid |
| `LedgerProperties.LookupAppendFound` | app/models/spree/store_credit.rb:88 | events appended after a match do not change what `find_by` returns |
| `LedgerProperties.LookupAppendMissing` | app/models/spree/store_credit.rb:100 | with no match in the log, `find_by` on the extended log returns the first match among the appended events |
| `LedgerProperties.AuthorizeReplay` | app/models/spree/store_credit.rb:46-48 | a code that already has an authorize event returns `true` and changes nothing: amounts, log and errors |
| `LedgerProperties.AuthorizeInsufficientFunds` | app/models/spree/store_credit.rb:54-62 | with the remaining amount below the request, authorize returns `false`, adds the insufficient-funds and insufficient-authorized messages in that order, and changes nothing else |
| `LedgerProperties.AuthorizeCurrencyMismatch` | app/models/spree/store_credit.rb:60-66 | with enough funds but another currency, authorize returns `false`, adds the currency-mismatch and insufficient-authorized messages, and changes nothing else |
| `LedgerProperties.AuthorizeStickyErrors` | app/models/spree/store_credit.rb:66 | errors left by an earlier call make any non-replay authorize return `false` without changing amounts or log |
| `LedgerProperties.AuthorizeHolds` | app/models/spree/store_credit.rb:50-53 | a successful authorize returns the code, adds exactly `amount` to the authorized amount, keeps the total and used amount, lowers the remaining amount by `amount`, clears errors and appends one authorize event with that code and amount (none for a zero amount) |
| `LedgerProperties.AuthorizeOutcome` | app/models/spree/store_credit.rb:46-67 | on a valid record a non-replay authorize never raises, and returns the code if and only if there are no earlier errors, the funds suffice and the currency matches |
| `LedgerProperties.AuthorizeBoundary` | app/models/spree/store_credit.rb:60-61 | authorizing exactly the remaining amount succeeds and leaves zero remaining; one cent more is refused for insufficient funds |
| `LedgerProperties.ZeroAuthorizeLeavesNoEvent` | app/models/spree/store_credit.rb:140 | an authorize of zero writes no event, so the replay guard does not see the code later |
| `LedgerProperties.CaptureFresh` | app/models/spree/store_credit.rb:69-80 | a capture without a prior authorization returns the code, raises the used amount by `amount`, leaves the authorized amount where it was, and logs an authorize event followed by a capture event |
| `LedgerProperties.FreshCaptureRefusedKeepsHold` | app/models/spree/store_credit.rb:69-84 | with the authorized amount negative, a capture of a code with no authorize event returns `false` with only the insufficient-authorized message, yet keeps the hold and the authorize event its authorize step saved |
| `LedgerProperties.CaptureSettles` | app/models/spree/store_credit.rb:72-80 | after a replayed authorize, capture moves `amount` from authorized to used, keeps their sum and appends one capture event; it raises, storing nothing, when the used amount would go negative |
| `LedgerProperties.CaptureExceedsAuthorization` | app/models/spree/store_credit.rb:81-84 | with an authorize event present, capturing more than the authorized amount returns `false` with the insufficient-authorized message and changes nothing else |
| `LedgerProperties.CaptureCurrencyCheckNeedsReplay` | app/models/spree/store_credit.rb:70-75 | without an authorize event a foreign currency is refused by the authorize step itself, so capture's own currency check fires only after a replay |
| `LedgerProperties.SecondCaptureRefused` | app/models/spree/store_credit.rb:69-84 | when the holds of other codes are below the amount, a second capture of the same amount and code after a first full capture is refused for insufficient authorized amount |
| `LedgerProperties.SecondCaptureSpendsOtherHold` | app/models/spree/store_credit.rb:69-80 | when the holds of other codes cover the amount, a second capture of the same amount and code succeeds as well: used grows by twice the amount and the other codes' holds shrink by the amount |
| `LedgerProperties.VoidMissing` | app/models/spree/store_credit.rb:92-95 | voiding a code with no authorize event returns `false`, adds the unable-to-void message and changes nothing else |
| `LedgerProperties.VoidReleases` | app/models/spree/store_credit.rb:88-91 | void subtracts the recorded authorize amount from the authorized amount, keeps the used amount and total, and appends a void event with that amount; it raises only when the release breaks the sum validation |
| `LedgerProperties.VoidTwiceReleasesTwice` | app/models/spree/store_credit.rb:87-91 | void is not idempotent: voiding the same code twice succeeds both times and lowers the authorized amount by twice the recorded hold |
| `LedgerProperties.CreditCurrencyMismatch` | app/models/spree/store_credit.rb:102-104 | a foreign currency is refused whatever the capture lookup finds, with only the currency-mismatch message added |
| `LedgerProperties.CreditNoTarget` | app/models/spree/store_credit.rb:109-111 | with no capture event for the code, or an amount above the captured amount, credit returns `false` with the unable-to-credit message and changes nothing else |
| `LedgerProperties.CreditGivesBack` | app/models/spree/store_credit.rb:105-108 | credit lowers only the used amount, by `amount`, and appends a credit event; it raises when the new used amount fails validation |
| `LedgerProperties.CreditKeepsCapture` | app/models/spree/store_credit.rb:100-107 | after a credit the same capture event is still found, so repeated credits are limited only by validation |
| `LedgerProperties.RepeatedCreditWhileUsedCovers` | app/models/spree/store_credit.rb:98-108 | two credits of up to the captured amount on one code both succeed while the used amount covers both, other codes' captures included, lowering used by twice the amount |
| `LedgerProperties.CaptureThenCredit` | app/models/spree/store_credit.rb:69-113 | a capture followed by a credit of the same amount returns the used amount to its value before the capture, and the authorized amount to where it started |
| `LedgerProperties.RefusalChangesOnlyErrors` | app/models/spree/store_credit.rb:46-113 | a refused authorize, void or credit changes only the error list |
| `LedgerProperties.CaptureRefusalChangesOnlyErrors` | app/models/spree/store_credit.rb:69-85 | on a valid record whose authorized amount is not negative, a refused capture changes only the error list |
| `LedgerProperties.AcceptedChangeLogsOneEvent` | app/models/spree/store_credit.rb:140-143 | an accepted save made for an action appends exactly one event with that action, amount and code when an amount changed or the action is `eligible`, and none otherwise |
| `LedgerProperties.SaveChangesOnlyAmounts` | app/models/spree/store_credit.rb:17-30 | an `update_attributes!` whose amounts pass validation succeeds, stores those amounts and clears the errors, changes nothing else but the log, and the log is what the after-save hook writes for the saved record given whether any amount changed |
| `LedgerProperties.ActionlessSaveRewritesAllocation` | app/models/spree/store_credit.rb:139-150 | an accepted save with no action that changes any amount rewrites the first allocation event in place with `action_amount` (else the new total) and the authorization code (else its own), keeping the log length and every other event |
| `LedgerProperties.ActionlessSaveAddsAllocation` | app/models/spree/store_credit.rb:139-150 | on a log with no allocation event, such a save appends one with `action_amount` (else the new total) and the authorization code (else a generated one) |
| `History.Apply` | app/models/spree/store_credit.rb:155-167 | every call (verb, scratch assignment or plain update) keeps the validated invariant |
| `History.Run` | app/models/spree/store_credit.rb:17-22 | after any sequence of calls the total is positive, the used amount lies in [0, total] and used plus authorized is within the total |
| `History.ApplyKeepsHistory` | app/models/spree/store_credit.rb:139-153 | one call never shortens the log, adds at most two events, and keeps every non-allocation event in place |
| `History.RunKeepsHistory` | app/models/spree/store_credit.rb:139-153 | across any sequence of calls the log never shrinks and every non-allocation event keeps its position and contents |
| `History.VerbAppends` | app/models/spree/store_credit.rb:46-113 | a payment verb only appends to the log (at most two events) and never changes the total or currency |
| `History.VerbsAppendOnly` | app/models/spree/store_credit.rb:139-146 | under payment verbs alone the old log stays a prefix of the new one, and the total and currency are fixed |
| `PaymentCapabilities.CanVoid` | app/models/spree/store_credit.rb:123-125 | a payment that can be voided (a pending one) is neither in checkout nor completed |
| `PaymentCapabilities.CanCapture` | app/models/spree/store_credit.rb:119-121 | the payments that can be captured are exactly those that can be voided plus those in checkout; the only ones that can be captured but not voided are in checkout |
| `PaymentCapabilities.CanCredit` | app/models/spree/store_credit.rb:127-131 | a payment that can be credited can be neither captured nor voided |
| `Scenarios.CreateHundred` | app/models/spree/store_credit.rb:142-152 | creating a 100.00 USD credit stores the single allocation event |
| `Scenarios.AuthorizeForty` | app/models/spree/store_credit.rb:50-53 | authorizing 40.00 of 100.00 holds 40.00, leaves 60.00 and logs one authorize event |
| `Scenarios.CaptureForty` | app/models/spree/store_credit.rb:69-80 | capturing those 40.00 makes used 40.00 and authorized 0 with one capture event |
| `Scenarios.CaptureAgainRefused` | app/models/spree/store_credit.rb:81-84 | a second capture of 40.00 on the same code is refused for insufficient authorized amount |
| `Scenarios.CreditForty` | app/models/spree/store_credit.rb:105-108 | crediting the 40.00 returns used to 0 and logs one credit event |
| `Scenarios.CreditAgainRaises` | app/models/spree/store_credit.rb:19 | a further credit of 1.00 on the same code raises on the `amount_used >= 0` validation |
| `Scenarios.OverdrawnThenSticky` | app/models/spree/store_credit.rb:60-66 | asking 60.00 of 50.00 is refused with nothing changed but the errors, which then make an affordable authorize fail |
| `Scenarios.VoidForty` | app/models/spree/store_credit.rb:88-91 | voiding the 40.00 hold releases it and logs a void event |
| `Scenarios.VoidFortyAgain` | app/models/spree/store_credit.rb:88-91 | voiding the same code again releases 40.00 once more, leaving the authorized amount at -40.00 on a record that still passes validation |
| `Scenarios.RefusedCaptureKeepsHold` | app/models/spree/store_credit.rb:70-84 | with the authorized amount negative, capture returns `false` after its authorize step has stored a hold and an authorize event |
| `Scenarios.StaleActionAfterAuthorize` | app/models/spree/store_credit.rb:32 | an amount edit saved on the same object after an authorize logs another authorize event with the old code and amount |
| `Scenarios.AdminEditRewritesAllocation` | app/models/spree/store_credit.rb:144-150 | an amount edit on an object with no action set rewrites the allocation event with the new total and keeps its code |

## Left out

- The user's total-available-credit snapshot on each event (`user_total_amount`). The user model is not part of this model, so events carry only action, amount and code.
- `generate_authorization_code` reads the wall clock. Codes are therefore parameters: authorize's code argument, and the `fallbackCode` of a save, which names an event that would otherwise get a generated code.
- `display_amount` and `display_amount_used` are money formatting.
- The `order_by_priority` scope is an SQL ordering.
- `associate_credit_type`, and the presence validations of user, category, creator and credit type, depend on global lookups and associations. The model assumes these are present.
- The `actions` list is a constant naming the payment-method verbs. It holds no logic.
- `acts_as_paranoid` soft deletion, ActiveRecord transactions, row locking and concurrency.
- Object state after a raised `update_attributes!`. Rails leaves the rejected values assigned on the in-memory object until it is reloaded. The model keeps the stored amounts and log, and the validation messages in `errors`.
- Nil authorization codes. Codes are always strings here. In the source, `capture`, `void` and `credit` take the code without a default, so a caller can pass nil. A capture with a nil code finds no authorize event, stores the hold, logs it under a generated code, and then returns `false`, because `authorize` returns its nil argument.
- Nil amounts. This covers the `amount_used.nil?` guard of the used-amount validator and non-numeric input to the numericality validations. Amounts are integers here.
- Sub-cent amounts. Money is a whole number of cents.
- The validations of the event model. It is not part of this model, so an event save is taken to succeed.
- Lookup order. `find_by` and `where(...).first` are taken to return the earliest matching event in log order.
- The payment and order models are not part of this model. A payment is reduced to its state, its order's payment state and its creditable amount.
- Gift-card redemption, user generation, mail delivery and the API parameter whitelist. These are glue outside the ledger.
