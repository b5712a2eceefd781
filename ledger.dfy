/** The store-credit balance of app/models/spree/store_credit.rb as pure functions over a
    record value: the validation gate every save goes through, the after-save hook that writes
    the event log, and the four payment verbs (authorize, capture, void, credit).
    Money is decimal in the source; here it is an integer number of cents. */
module Ledger {

  datatype Option<+T> = None | Some(value: T) {
    /** Ruby's `x || default` when x may be nil (0 and "" are truthy in Ruby). */
    function GetOr(default: T): T {
      if Some? then value else default
    }
  }

  type Code = string
  type Currency = string

  /** The action constants of store_credit.rb. */
  datatype Action =
    | AllocationAction
    | AuthorizeAction
    | CaptureAction
    | VoidAction
    | CreditAction
    | EligibleAction

  /** One row of the store-credit event log. */
  datatype Event = Event(action: Action, amount: int, authorizationCode: Code)

  /** The messages `errors.add` attaches to the record. */
  datatype Message =
    | InsufficientFunds
    | CurrencyMismatch
    | InsufficientAuthorizedAmount
    | UnableToVoid(voidCode: Code)
    | UnableToCredit(creditCode: Code)
    | AmountNotPositive
    | AmountUsedNegative
    | AmountUsedGreaterThanAmount
    | AmountAuthorizedExceedsTotal

  /** The state of one store credit: its three amounts and currency, its event log, its error
      list, and the three scratch attributes (`action`, `authorization_code`, `action_amount`)
      that an operation sets before saving and that are never cleared afterwards. */
  datatype Record = Record(
    amount: int,
    amountUsed: int,
    amountAuthorized: int,
    currency: Currency,
    events: seq<Event>,
    errors: seq<Message>,
    action: Option<Action>,
    authorizationCode: Option<Code>,
    actionAmount: Option<int>)

  /** What a call gives back: an authorization code, `true`, `false`, or a raised
      ActiveRecord::RecordInvalid from `update_attributes!`. */
  datatype Outcome = ReturnedCode(code: Code) | ReturnedTrue | ReturnedFalse | Raised

  datatype Step = Step(record: Record, outcome: Outcome)

  /** The four conditions the validations enforce on the amounts. */
  predicate Invariant(amount: int, amountUsed: int, amountAuthorized: int) {
    && amount > 0
    && amountUsed >= 0
    && amountUsed <= amount
    && amountUsed + amountAuthorized <= amount
  }

  predicate Valid(r: Record) {
    Invariant(r.amount, r.amountUsed, r.amountAuthorized)
  }

  /** The messages the validations add, in declaration order: the numericality of `amount`
      and `amount_used`, then the two custom amount validators. */
  function ValidationErrors(amount: int, amountUsed: int, amountAuthorized: int): (errs: seq<Message>)
    ensures errs == [] <==> Invariant(amount, amountUsed, amountAuthorized)
    ensures AmountNotPositive in errs <==> amount <= 0
    ensures AmountUsedNegative in errs <==> amountUsed < 0
    ensures AmountUsedGreaterThanAmount in errs <==> amountUsed > amount
    ensures AmountAuthorizedExceedsTotal in errs <==> amountUsed + amountAuthorized > amount
  {
    (if amount > 0 then [] else [AmountNotPositive])
    + (if amountUsed >= 0 then [] else [AmountUsedNegative])
    + (if amountUsed > amount then [AmountUsedGreaterThanAmount] else [])
    + (if amountUsed + amountAuthorized > amount then [AmountAuthorizedExceedsTotal] else [])
  }

  /** The part of the total neither used nor held by an authorization. */
  function AmountRemaining(r: Record): (rem: int)
    ensures rem + r.amountUsed + r.amountAuthorized == r.amount
    ensures rem >= 0 <==> r.amountUsed + r.amountAuthorized <= r.amount
    ensures Valid(r) ==> rem >= 0 && rem + r.amountAuthorized <= r.amount
  {
    r.amount - r.amountUsed - r.amountAuthorized
  }

  /** Whether an event answers a lookup by action and, when given, by authorization code. */
  predicate Matches(e: Event, action: Action, code: Option<Code>) {
    e.action == action && (code.Some? ==> e.authorizationCode == code.value)
  }

  /** The position of the first event of the log that matches. */
  function IndexOf(log: seq<Event>, action: Action, code: Option<Code>): (k: Option<nat>)
    ensures k.Some? ==> k.value < |log| && Matches(log[k.value], action, code)
    ensures k.Some? ==> forall j :: 0 <= j < k.value ==> !Matches(log[j], action, code)
    ensures k.None? <==> forall j :: 0 <= j < |log| ==> !Matches(log[j], action, code)
    decreases |log|
  {
    if |log| == 0 then None
    else if Matches(log[0], action, code) then Some(0)
    else match IndexOf(log[1..], action, code)
      case None => None
      case Some(i) => Some(i + 1)
  }

  /** `store_credit_events.find_by(action: action, authorization_code: code)`. */
  function Lookup(log: seq<Event>, action: Action, code: Code): (found: Option<Event>)
    ensures found.Some? ==>
      found.value in log && found.value.action == action && found.value.authorizationCode == code
    ensures found.None? <==> forall e :: e in log ==> !(e.action == action && e.authorizationCode == code)
  {
    match IndexOf(log, action, Some(code))
    case None => None
    case Some(i) => Some(log[i])
  }

  /** The after-save hook `store_event`. `r` carries the saved amounts and the log as it was;
      `changed` says whether one of the three amounts changed in this save. An action-less
      save rewrites the first allocation event (or creates one); any other writes one new
      event. The result keeps every non-allocation event where it was. */
  function StoreEvent(r: Record, changed: bool, fallbackCode: Code): (log: seq<Event>)
    ensures !changed && r.action != Some(EligibleAction) ==> log == r.events
    ensures r.action.Some? && (changed || r.action == Some(EligibleAction)) ==>
      log == r.events + [Event(r.action.value, r.actionAmount.GetOr(r.amount), r.authorizationCode.GetOr(fallbackCode))]
    ensures |r.events| <= |log| <= |r.events| + 1
    ensures forall i :: 0 <= i < |r.events| && r.events[i].action != AllocationAction ==> log[i] == r.events[i]
  {
    if !changed && r.action != Some(EligibleAction) then r.events
    else
      var amount := r.actionAmount.GetOr(r.amount);
      match r.action
      case Some(a) => r.events + [Event(a, amount, r.authorizationCode.GetOr(fallbackCode))]
      case None =>
        match IndexOf(r.events, AllocationAction, None)
        case Some(i) =>
          r.events[i := Event(AllocationAction, amount, r.authorizationCode.GetOr(r.events[i].authorizationCode))]
        case None =>
          r.events + [Event(AllocationAction, amount, r.authorizationCode.GetOr(fallbackCode))]
  }

  /** `update_attributes!` of the three amounts: the validation gate, then the after-save hook.
      A save that fails validation raises and stores nothing; only the error list (cleared
      and refilled by the validations) changes. */
  function Save(r: Record, amount: int, amountUsed: int, amountAuthorized: int, fallbackCode: Code): (s: Step)
    ensures s.outcome == ReturnedTrue || s.outcome == Raised
    ensures s.outcome == ReturnedTrue <==> Invariant(amount, amountUsed, amountAuthorized)
    ensures s.outcome == ReturnedTrue ==>
      && Valid(s.record)
      && s.record.amount == amount && s.record.amountUsed == amountUsed
      && s.record.amountAuthorized == amountAuthorized && s.record.errors == []
    ensures s.outcome == Raised ==>
      s.record == r.(errors := ValidationErrors(amount, amountUsed, amountAuthorized))
    ensures s.record.currency == r.currency && s.record.action == r.action
      && s.record.authorizationCode == r.authorizationCode && s.record.actionAmount == r.actionAmount
  {
    var errs := ValidationErrors(amount, amountUsed, amountAuthorized);
    if errs != [] then Step(r.(errors := errs), Raised)
    else
      var changed := amount != r.amount || amountUsed != r.amountUsed || amountAuthorized != r.amountAuthorized;
      var saved := r.(amount := amount, amountUsed := amountUsed, amountAuthorized := amountAuthorized, errors := []);
      Step(saved.(events := StoreEvent(saved, changed, fallbackCode)), ReturnedTrue)
  }

  /** A save made on behalf of an operation: the scratch attributes are set first, so the
      hook logs `action` with `actionAmount` and `code`. */
  function SaveFor(r: Record, action: Action, code: Code, actionAmount: int,
                   amountUsed: int, amountAuthorized: int): (s: Step)
    ensures s.outcome == ReturnedTrue <==> Invariant(r.amount, amountUsed, amountAuthorized)
    ensures s.record.action == Some(action) && s.record.authorizationCode == Some(code)
      && s.record.actionAmount == Some(actionAmount)
    ensures s.record.amount == r.amount && s.record.currency == r.currency
    ensures s.outcome == ReturnedTrue ==>
      s.record.amountUsed == amountUsed && s.record.amountAuthorized == amountAuthorized
    ensures s.outcome == Raised ==>
      && s.record.amountUsed == r.amountUsed && s.record.amountAuthorized == r.amountAuthorized
      && s.record.events == r.events
  {
    Save(r.(action := Some(action), authorizationCode := Some(code), actionAmount := Some(actionAmount)),
         r.amount, amountUsed, amountAuthorized, code)
  }

  /** `create`: a new record whose used and authorized amounts start at zero; its first save
      writes the allocation event. */
  function Create(amount: int, currency: Currency, fallbackCode: Code): (s: Step)
    ensures s.outcome == ReturnedTrue <==> amount > 0
    ensures s.outcome == ReturnedTrue || s.outcome == Raised
    ensures s.outcome == ReturnedTrue ==>
      && Valid(s.record)
      && s.record == Record(amount, 0, 0, currency, [Event(AllocationAction, amount, fallbackCode)],
                            [], None, None, None)
    ensures s.outcome == Raised ==>
      && s.record.(errors := []) == Record(amount, 0, 0, currency, [], [], None, None, None)
      && AmountNotPositive in s.record.errors
  {
    var initial := Record(amount, 0, 0, currency, [], [], None, None, None);
    var errs := ValidationErrors(amount, 0, 0);
    if errs != [] then Step(initial.(errors := errs), Raised)
    else Step(initial.(events := StoreEvent(initial, true, fallbackCode)), ReturnedTrue)
  }

  /** `validate_authorization`: the error list after its checks; it passes when that list is
      empty. Insufficient funds is checked before the currency, and errors left by earlier
      calls make it fail too. */
  function ValidateAuthorization(r: Record, amount: int, orderCurrency: Currency): (errs: seq<Message>)
    ensures errs == [] <==>
      r.errors == [] && amount <= AmountRemaining(r) && r.currency == orderCurrency
    ensures AmountRemaining(r) < amount ==> errs == r.errors + [InsufficientFunds]
    ensures AmountRemaining(r) >= amount && r.currency != orderCurrency ==>
      errs == r.errors + [CurrencyMismatch]
    ensures AmountRemaining(r) >= amount && r.currency == orderCurrency ==> errs == r.errors
  {
    if AmountRemaining(r) < amount then r.errors + [InsufficientFunds]
    else if r.currency != orderCurrency then r.errors + [CurrencyMismatch]
    else r.errors
  }

  /** `authorize`: a code that already has an authorize event is a replay and returns true
      untouched; otherwise a passing validation holds `amount` and returns the code. */
  function Authorize(r: Record, amount: int, orderCurrency: Currency, code: Code): (s: Step)
    ensures s.outcome != ReturnedTrue ==> Lookup(r.events, AuthorizeAction, code).None?
    ensures s.outcome.ReturnedCode? ==> s.outcome.code == code
    ensures s.record.currency == r.currency && s.record.amount == r.amount
    ensures s.record.events == r.events || s.record.events == r.events + [Event(AuthorizeAction, amount, code)]
  {
    if Lookup(r.events, AuthorizeAction, code).Some? then Step(r, ReturnedTrue)
    else
      var errs := ValidateAuthorization(r, amount, orderCurrency);
      if errs == [] then
        var s := SaveFor(r, AuthorizeAction, code, amount, r.amountUsed, r.amountAuthorized + amount);
        if s.outcome == Raised then s else Step(s.record, ReturnedCode(code))
      else
        Step(r.(errors := errs + [InsufficientAuthorizedAmount]), ReturnedFalse)
  }

  /** Whether a result is truthy in Ruby, as `return false unless authorize(...)` reads it. */
  predicate Succeeded(o: Outcome) {
    o.ReturnedCode? || o.ReturnedTrue?
  }

  /** `capture`: authorize (or replay) with the same code, then move `amount` from the
      authorized to the used amount. */
  function Capture(r: Record, amount: int, code: Code, orderCurrency: Currency): (s: Step)
    ensures s.outcome.ReturnedCode? ==> s.outcome.code == code
    ensures s.record.currency == r.currency && s.record.amount == r.amount
    ensures r.events <= s.record.events && |s.record.events| <= |r.events| + 2
  {
    var a := Authorize(r, amount, orderCurrency, code);
    if !Succeeded(a.outcome) then a
    else
      var r1 := a.record;
      if amount <= r1.amountAuthorized then
        if r1.currency != orderCurrency then
          Step(r1.(errors := r1.errors + [CurrencyMismatch]), ReturnedFalse)
        else
          var s := SaveFor(r1, CaptureAction, code, amount, r1.amountUsed + amount, r1.amountAuthorized - amount);
          if s.outcome == Raised then s else Step(s.record, ReturnedCode(code))
      else
        Step(r1.(errors := r1.errors + [InsufficientAuthorizedAmount]), ReturnedFalse)
  }

  /** `void`: release the amount recorded by the code's authorize event. */
  function Void(r: Record, code: Code): (s: Step)
    ensures s.outcome.ReturnedFalse? <==> Lookup(r.events, AuthorizeAction, code).None?
    ensures s.record.currency == r.currency && s.record.amount == r.amount
      && s.record.amountUsed == r.amountUsed
    ensures s.record.events == r.events
      || (Lookup(r.events, AuthorizeAction, code).Some?
          && s.record.events == r.events + [Event(VoidAction, Lookup(r.events, AuthorizeAction, code).value.amount, code)])
  {
    match Lookup(r.events, AuthorizeAction, code)
    case Some(auth) =>
      var s := SaveFor(r, VoidAction, code, auth.amount, r.amountUsed, r.amountAuthorized - auth.amount);
      if s.outcome == Raised then s else Step(s.record, ReturnedTrue)
    case None =>
      Step(r.(errors := r.errors + [UnableToVoid(code)]), ReturnedFalse)
  }

  /** `credit`: give back up to the amount of the code's capture event. */
  function Credit(r: Record, amount: int, code: Code, orderCurrency: Currency): (s: Step)
    ensures s.outcome.ReturnedFalse? <==>
      r.currency != orderCurrency
      || Lookup(r.events, CaptureAction, code).None?
      || amount > Lookup(r.events, CaptureAction, code).value.amount
    ensures s.record.currency == r.currency && s.record.amount == r.amount
      && s.record.amountAuthorized == r.amountAuthorized
    ensures s.record.events == r.events || s.record.events == r.events + [Event(CreditAction, amount, code)]
  {
    var captured := Lookup(r.events, CaptureAction, code);
    if r.currency != orderCurrency then
      Step(r.(errors := r.errors + [CurrencyMismatch]), ReturnedFalse)
    else if captured.Some? && amount <= captured.value.amount then
      var s := SaveFor(r, CreditAction, code, amount, r.amountUsed - amount, r.amountAuthorized);
      if s.outcome == Raised then s else Step(s.record, ReturnedTrue)
    else
      Step(r.(errors := r.errors + [UnableToCredit(code)]), ReturnedFalse)
  }
}
