/** The store credit as the object the source mutates: its fields are updated in place by
    each operation, which sets the scratch attributes, pushes onto `errors` and saves.
    Every method is proved to leave the object in the state the matching function of
    module Ledger computes from the old state, and to keep the validated invariant. */
module StoreCredits {
  import opened Ledger

  class StoreCredit {
    var amount: int
    var amountUsed: int
    var amountAuthorized: int
    var currency: Currency
    var events: seq<Event>
    var errors: seq<Message>
    var action: Option<Action>
    var authorizationCode: Option<Code>
    var actionAmount: Option<int>

    /** The object's fields as a record value. */
    function Snapshot(): Record
      reads this
    {
      Record(amount, amountUsed, amountAuthorized, currency, events, errors,
             action, authorizationCode, actionAmount)
    }

    /** The object holds amounts that passed validation, as every stored record does. */
    ghost predicate Valid()
      reads this
    {
      Ledger.Valid(Snapshot())
    }

    /** `create(amount:, currency:)`: the used and authorized amounts start at zero and the
        first save writes the allocation event; an invalid amount leaves an unsaved object
        carrying the validation errors. */
    constructor Create(amount: int, currency: Currency, fallbackCode: Code)
      ensures Snapshot() == Ledger.Create(amount, currency, fallbackCode).record
      ensures Valid() <==> amount > 0
    {
      this.amount, amountUsed, amountAuthorized, this.currency := amount, 0, 0, currency;
      action, authorizationCode, actionAmount := None, None, None;
      events := [];
      var errs := ValidationErrors(amount, 0, 0);
      errors := errs;
      new;
      if errs == [] {
        StoreEvent(true, fallbackCode);
      }
    }

    /** The after-save hook `store_event`. */
    method StoreEvent(changed: bool, fallbackCode: Code)
      modifies this`events
      ensures events == Ledger.StoreEvent(old(Snapshot()), changed, fallbackCode)
    {
      if !changed && action != Some(EligibleAction) {
        return;
      }
      var logged := actionAmount.GetOr(amount);
      if action.Some? {
        events := events + [Event(action.value, logged, authorizationCode.GetOr(fallbackCode))];
      } else {
        var allocation := IndexOf(events, AllocationAction, None);
        if allocation.Some? {
          var i := allocation.value;
          events := events[i := Event(AllocationAction, logged, authorizationCode.GetOr(events[i].authorizationCode))];
        } else {
          events := events + [Event(AllocationAction, logged, authorizationCode.GetOr(fallbackCode))];
        }
      }
    }

    /** `update_attributes!` of the amounts: validate, then store and run the hook. */
    method UpdateAttributes(newAmount: int, newUsed: int, newAuthorized: int, fallbackCode: Code)
      returns (outcome: Outcome)
      modifies this
      ensures Step(Snapshot(), outcome) == Ledger.Save(old(Snapshot()), newAmount, newUsed, newAuthorized, fallbackCode)
      ensures outcome == ReturnedTrue ==> Valid()
      ensures outcome == Raised ==> unchanged(this`amount, this`amountUsed, this`amountAuthorized, this`events)
    {
      var errs := ValidationErrors(newAmount, newUsed, newAuthorized);
      if errs != [] {
        errors := errs;
        return Raised;
      }
      var changed := newAmount != amount || newUsed != amountUsed || newAuthorized != amountAuthorized;
      amount, amountUsed, amountAuthorized, errors := newAmount, newUsed, newAuthorized, [];
      StoreEvent(changed, fallbackCode);
      outcome := ReturnedTrue;
    }

    /** `validate_authorization`: push the first failing check's message; pass when the error
        list is empty afterwards. */
    method ValidateAuthorization(amount: int, orderCurrency: Currency) returns (ok: bool)
      modifies this`errors
      ensures errors == Ledger.ValidateAuthorization(old(Snapshot()), amount, orderCurrency)
      ensures ok <==> (old(errors) == [] && amount <= AmountRemaining(old(Snapshot()))
                       && currency == orderCurrency)
    {
      if this.amount - amountUsed - amountAuthorized < amount {
        errors := errors + [InsufficientFunds];
      } else if currency != orderCurrency {
        errors := errors + [CurrencyMismatch];
      }
      ok := errors == [];
    }

    method Authorize(amount: int, orderCurrency: Currency, code: Code) returns (outcome: Outcome)
      modifies this
      ensures Step(Snapshot(), outcome) == Ledger.Authorize(old(Snapshot()), amount, orderCurrency, code)
      ensures old(Valid()) ==> Valid()
    {
      if Lookup(events, AuthorizeAction, code).Some? {
        return ReturnedTrue;
      }
      ghost var before := Snapshot();
      var ok := ValidateAuthorization(amount, orderCurrency);
      if ok {
        action, authorizationCode, actionAmount := Some(AuthorizeAction), Some(code), Some(amount);
        assert Snapshot() == before.(action := Some(AuthorizeAction), authorizationCode := Some(code), actionAmount := Some(amount));
        var saved := UpdateAttributes(this.amount, amountUsed, amountAuthorized + amount, code);
        outcome := if saved == Raised then Raised else ReturnedCode(code);
      } else {
        errors := errors + [InsufficientAuthorizedAmount];
        outcome := ReturnedFalse;
      }
    }

    method Capture(amount: int, code: Code, orderCurrency: Currency) returns (outcome: Outcome)
      modifies this
      ensures Step(Snapshot(), outcome) == Ledger.Capture(old(Snapshot()), amount, code, orderCurrency)
      ensures old(Valid()) ==> Valid()
    {
      var authorized := Authorize(amount, orderCurrency, code);
      if !Succeeded(authorized) {
        return authorized;
      }
      if amount <= amountAuthorized {
        if currency != orderCurrency {
          errors := errors + [CurrencyMismatch];
          outcome := ReturnedFalse;
        } else {
          ghost var before := Snapshot();
          action, authorizationCode, actionAmount := Some(CaptureAction), Some(code), Some(amount);
          assert Snapshot() == before.(action := Some(CaptureAction), authorizationCode := Some(code), actionAmount := Some(amount));
          var saved := UpdateAttributes(this.amount, amountUsed + amount, amountAuthorized - amount, code);
          outcome := if saved == Raised then Raised else ReturnedCode(code);
        }
      } else {
        errors := errors + [InsufficientAuthorizedAmount];
        outcome := ReturnedFalse;
      }
    }

    method Void(code: Code) returns (outcome: Outcome)
      modifies this
      ensures Step(Snapshot(), outcome) == Ledger.Void(old(Snapshot()), code)
      ensures old(Valid()) ==> Valid()
    {
      var auth := Lookup(events, AuthorizeAction, code);
      if auth.Some? {
        ghost var before := Snapshot();
        action, authorizationCode, actionAmount := Some(VoidAction), Some(code), Some(auth.value.amount);
        assert Snapshot() == before.(action := Some(VoidAction), authorizationCode := Some(code), actionAmount := Some(auth.value.amount));
        var saved := UpdateAttributes(amount, amountUsed, amountAuthorized - auth.value.amount, code);
        outcome := if saved == Raised then Raised else ReturnedTrue;
      } else {
        errors := errors + [UnableToVoid(code)];
        outcome := ReturnedFalse;
      }
    }

    method Credit(amount: int, code: Code, orderCurrency: Currency) returns (outcome: Outcome)
      modifies this
      ensures Step(Snapshot(), outcome) == Ledger.Credit(old(Snapshot()), amount, code, orderCurrency)
      ensures old(Valid()) ==> Valid()
    {
      var captured := Lookup(events, CaptureAction, code);
      if currency != orderCurrency {
        errors := errors + [CurrencyMismatch];
        outcome := ReturnedFalse;
      } else if captured.Some? && amount <= captured.value.amount {
        ghost var before := Snapshot();
        action, authorizationCode, actionAmount := Some(CreditAction), Some(code), Some(amount);
        assert Snapshot() == before.(action := Some(CreditAction), authorizationCode := Some(code), actionAmount := Some(amount));
        var saved := UpdateAttributes(this.amount, amountUsed - amount, amountAuthorized, code);
        outcome := if saved == Raised then Raised else ReturnedTrue;
      } else {
        errors := errors + [UnableToCredit(code)];
        outcome := ReturnedFalse;
      }
    }
  }
}
