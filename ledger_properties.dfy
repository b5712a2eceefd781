/** What the four payment verbs of store_credit.rb promise, stated over the functions of
    module Ledger: the authorize replay guard and its two refusals, capture as
    authorize-then-settle, void's release of the recorded hold, and credit's bounded give-back. */
module LedgerProperties {
  import opened Ledger

  // ---------------------------------------------------------------- event lookups

  /** Searching a log extended at the back finds the same first match as before. */
  lemma {:induction false} IndexOfAppendFound(log: seq<Event>, tail: seq<Event>, action: Action, code: Option<Code>)
    requires IndexOf(log, action, code).Some?
    ensures IndexOf(log + tail, action, code) == IndexOf(log, action, code)
  {
    if !Matches(log[0], action, code) {
      assert (log + tail)[1..] == log[1..] + tail;
      IndexOfAppendFound(log[1..], tail, action, code);
    }
  }

  /** Searching a log with no match extended at the back finds the first match of the
      extension, shifted past the log. */
  lemma {:induction false} IndexOfAppendMissing(log: seq<Event>, tail: seq<Event>, action: Action, code: Option<Code>)
    requires IndexOf(log, action, code).None?
    ensures IndexOf(log + tail, action, code) ==
      match IndexOf(tail, action, code) case None => None case Some(k) => Some(|log| + k)
  {
    if log == [] {
      assert log + tail == tail;
    } else {
      var whole := log + tail;
      assert whole[0] == log[0];
      assert !Matches(log[0], action, code);
      assert whole[1..] == log[1..] + tail;
      assert IndexOf(log[1..], action, code).None? by {
        assert forall j :: 0 <= j < |log| - 1 ==> log[1..][j] == log[j + 1];
      }
      IndexOfAppendMissing(log[1..], tail, action, code);
    }
  }

  /** Events appended after a match do not change what `find_by` returns. */
  lemma LookupAppendFound(log: seq<Event>, tail: seq<Event>, action: Action, code: Code)
    requires Lookup(log, action, code).Some?
    ensures Lookup(log + tail, action, code) == Lookup(log, action, code)
  {
    IndexOfAppendFound(log, tail, action, Some(code));
  }

  /** With no match in the log, `find_by` on an extended log finds the first match among the
      appended events. */
  lemma LookupAppendMissing(log: seq<Event>, tail: seq<Event>, action: Action, code: Code)
    requires Lookup(log, action, code).None?
    ensures Lookup(log + tail, action, code) == Lookup(tail, action, code)
  {
    IndexOfAppendMissing(log, tail, action, Some(code));
  }

  // ---------------------------------------------------------------- authorize

  /** A code that already has an authorize event is a replay: true, and nothing changes. */
  lemma AuthorizeReplay(r: Record, amount: int, orderCurrency: Currency, code: Code)
    requires Lookup(r.events, AuthorizeAction, code).Some?
    ensures Authorize(r, amount, orderCurrency, code) == Step(r, ReturnedTrue)
  {
  }

  /** Insufficient funds is reported first, then the generic refusal; nothing else changes. */
  lemma AuthorizeInsufficientFunds(r: Record, amount: int, orderCurrency: Currency, code: Code)
    requires Lookup(r.events, AuthorizeAction, code).None?
    requires AmountRemaining(r) < amount
    ensures Authorize(r, amount, orderCurrency, code)
      == Step(r.(errors := r.errors + [InsufficientFunds, InsufficientAuthorizedAmount]), ReturnedFalse)
  {
  }

  /** With enough funds, a foreign currency is refused and nothing else changes. */
  lemma AuthorizeCurrencyMismatch(r: Record, amount: int, orderCurrency: Currency, code: Code)
    requires Lookup(r.events, AuthorizeAction, code).None?
    requires amount <= AmountRemaining(r) && r.currency != orderCurrency
    ensures Authorize(r, amount, orderCurrency, code)
      == Step(r.(errors := r.errors + [CurrencyMismatch, InsufficientAuthorizedAmount]), ReturnedFalse)
  {
  }

  /** Errors left by an earlier failed call make any non-replay authorize fail. */
  lemma AuthorizeStickyErrors(r: Record, amount: int, orderCurrency: Currency, code: Code)
    requires Lookup(r.events, AuthorizeAction, code).None?
    requires r.errors != []
    ensures Authorize(r, amount, orderCurrency, code).outcome == ReturnedFalse
    ensures Authorize(r, amount, orderCurrency, code).record
      == r.(errors := Authorize(r, amount, orderCurrency, code).record.errors)
  {
  }

  /** A successful authorize holds exactly `amount`, returns the code, and logs one authorize
      event with that code and amount when the hold changed. */
  lemma AuthorizeHolds(r: Record, amount: int, orderCurrency: Currency, code: Code)
    requires Valid(r)
    requires Lookup(r.events, AuthorizeAction, code).None?
    requires r.errors == [] && amount <= AmountRemaining(r) && r.currency == orderCurrency
    ensures var s := Authorize(r, amount, orderCurrency, code);
      && s.outcome == ReturnedCode(code)
      && Valid(s.record)
      && s.record.amountAuthorized == r.amountAuthorized + amount
      && s.record.amount == r.amount && s.record.amountUsed == r.amountUsed
      && AmountRemaining(s.record) == AmountRemaining(r) - amount
      && s.record.events == r.events + (if amount == 0 then [] else [Event(AuthorizeAction, amount, code)])
      && s.record.errors == []
  {
  }

  /** On a valid record authorize never raises, and it returns the code exactly when the
      error list is clean, the funds suffice and the currency matches. */
  lemma {:induction false} AuthorizeOutcome(r: Record, amount: int, orderCurrency: Currency, code: Code)
    requires Valid(r)
    requires Lookup(r.events, AuthorizeAction, code).None?
    ensures var s := Authorize(r, amount, orderCurrency, code);
      && (s.outcome == ReturnedCode(code) || s.outcome == ReturnedFalse)
      && (s.outcome == ReturnedCode(code) <==>
            r.errors == [] && amount <= AmountRemaining(r) && r.currency == orderCurrency)
  {
    if r.errors == [] && amount <= AmountRemaining(r) && r.currency == orderCurrency {
      AuthorizeHolds(r, amount, orderCurrency, code);
    }
  }

  /** Authorizing exactly the remaining amount succeeds and leaves nothing remaining; one cent
      more is refused for insufficient funds. */
  lemma AuthorizeBoundary(r: Record, orderCurrency: Currency, code: Code)
    requires Valid(r)
    requires Lookup(r.events, AuthorizeAction, code).None?
    requires r.errors == [] && r.currency == orderCurrency
    ensures Authorize(r, AmountRemaining(r), orderCurrency, code).outcome == ReturnedCode(code)
    ensures AmountRemaining(Authorize(r, AmountRemaining(r), orderCurrency, code).record) == 0
    ensures Authorize(r, AmountRemaining(r) + 1, orderCurrency, code).outcome == ReturnedFalse
    ensures Authorize(r, AmountRemaining(r) + 1, orderCurrency, code).record.errors
      == [InsufficientFunds, InsufficientAuthorizedAmount]
  {
    AuthorizeHolds(r, AmountRemaining(r), orderCurrency, code);
  }

  /** Authorizing zero changes no amount, so no event is written and a later authorize with
      the same code is not recognised as a replay. */
  lemma ZeroAuthorizeLeavesNoEvent(r: Record, orderCurrency: Currency, code: Code)
    requires Lookup(r.events, AuthorizeAction, code).None?
    ensures Authorize(r, 0, orderCurrency, code).record.events == r.events
    ensures Lookup(Authorize(r, 0, orderCurrency, code).record.events, AuthorizeAction, code).None?
  {
  }

  // ---------------------------------------------------------------- capture

  /** Capture without a prior authorization holds and settles in one call: the used amount
      grows by `amount`, the authorized amount ends where it started, and two events are
      logged, authorize then capture. */
  lemma {:induction false} CaptureFresh(r: Record, amount: int, code: Code, orderCurrency: Currency)
    requires Valid(r)
    requires Lookup(r.events, AuthorizeAction, code).None?
    requires r.errors == [] && r.currency == orderCurrency
    requires 0 <= amount <= AmountRemaining(r) && r.amountAuthorized >= 0
    ensures var s := Capture(r, amount, code, orderCurrency);
      && s.outcome == ReturnedCode(code)
      && Valid(s.record)
      && s.record.amountUsed == r.amountUsed + amount
      && s.record.amountAuthorized == r.amountAuthorized
      && s.record.amount == r.amount
      && s.record.events == r.events
           + (if amount == 0 then [] else [Event(AuthorizeAction, amount, code), Event(CaptureAction, amount, code)])
  {
    AuthorizeHolds(r, amount, orderCurrency, code);
  }

  /** With a negative authorized amount, a fresh capture is refused at the authorized-amount
      test after its authorize step has already been saved: the hold stays and the authorize
      event is logged, so this refusal is not free of side effects. */
  lemma FreshCaptureRefusedKeepsHold(r: Record, amount: int, code: Code, orderCurrency: Currency)
    requires Valid(r)
    requires Lookup(r.events, AuthorizeAction, code).None?
    requires r.errors == [] && r.currency == orderCurrency
    requires r.amountAuthorized < 0 < amount <= AmountRemaining(r)
    ensures var s := Capture(r, amount, code, orderCurrency);
      && s.outcome == ReturnedFalse
      && s.record.amountAuthorized == r.amountAuthorized + amount
      && s.record.amountUsed == r.amountUsed
      && s.record.events == r.events + [Event(AuthorizeAction, amount, code)]
      && s.record.errors == [InsufficientAuthorizedAmount]
  {
    AuthorizeHolds(r, amount, orderCurrency, code);
  }

  /** Capture of an already authorized code settles: `amount` moves from authorized to used,
      their sum is unchanged, and one capture event is logged; a settlement that would make
      the used amount negative raises. */
  lemma CaptureSettles(r: Record, amount: int, code: Code, orderCurrency: Currency)
    requires Valid(r)
    requires Lookup(r.events, AuthorizeAction, code).Some?
    requires amount <= r.amountAuthorized && r.currency == orderCurrency
    ensures var s := Capture(r, amount, code, orderCurrency);
      && s.outcome == (if r.amountUsed + amount >= 0 then ReturnedCode(code) else Raised)
      && (s.outcome == ReturnedCode(code) ==>
            && s.record.amountUsed == r.amountUsed + amount
            && s.record.amountAuthorized == r.amountAuthorized - amount
            && s.record.amountUsed + s.record.amountAuthorized == r.amountUsed + r.amountAuthorized
            && s.record.events == r.events + (if amount == 0 then [] else [Event(CaptureAction, amount, code)]))
      && (s.outcome == Raised ==> s.record.events == r.events && s.record.amountUsed == r.amountUsed)
  {
  }

  /** After the authorize step, capturing more than is authorized is refused. */
  lemma CaptureExceedsAuthorization(r: Record, amount: int, code: Code, orderCurrency: Currency)
    requires Lookup(r.events, AuthorizeAction, code).Some?
    requires amount > r.amountAuthorized
    ensures Capture(r, amount, code, orderCurrency)
      == Step(r.(errors := r.errors + [InsufficientAuthorizedAmount]), ReturnedFalse)
  {
  }

  /** Capture's own currency check fires only after a replayed authorize: without an
      authorize event for the code a foreign currency is already refused by the authorize
      step, with its messages. */
  lemma CaptureCurrencyCheckNeedsReplay(r: Record, amount: int, code: Code, orderCurrency: Currency)
    requires r.currency != orderCurrency
    ensures Lookup(r.events, AuthorizeAction, code).None? ==>
      Capture(r, amount, code, orderCurrency) == Authorize(r, amount, orderCurrency, code)
      && Capture(r, amount, code, orderCurrency).outcome == ReturnedFalse
    ensures Lookup(r.events, AuthorizeAction, code).Some? && amount <= r.amountAuthorized ==>
      Capture(r, amount, code, orderCurrency)
        == Step(r.(errors := r.errors + [CurrencyMismatch]), ReturnedFalse)
  {
  }

  /** A second full capture with the same code is refused when the holds left from other
      codes are below the amount: the replayed authorize holds nothing new, and the first
      capture consumed this code's hold. */
  lemma {:induction false} SecondCaptureRefused(r: Record, amount: int, code: Code, orderCurrency: Currency)
    requires Valid(r)
    requires Lookup(r.events, AuthorizeAction, code).None?
    requires r.errors == [] && r.currency == orderCurrency
    requires 0 < amount <= AmountRemaining(r) && 0 <= r.amountAuthorized < amount
    ensures var first := Capture(r, amount, code, orderCurrency);
      && first.outcome == ReturnedCode(code)
      && Capture(first.record, amount, code, orderCurrency)
           == Step(first.record.(errors := [InsufficientAuthorizedAmount]), ReturnedFalse)
  {
    CaptureFresh(r, amount, code, orderCurrency);
    var first := Capture(r, amount, code, orderCurrency);
    assert Event(AuthorizeAction, amount, code) in first.record.events;
    CaptureExceedsAuthorization(first.record, amount, code, orderCurrency);
  }

  /** Capture compares `amount` with the record-wide authorized amount, not with this code's
      own hold: when the holds of other codes cover it, a second full capture of the same code
      succeeds as well and spends them. Together with `SecondCaptureRefused` this decides the
      second capture for every authorized amount. */
  lemma {:induction false} SecondCaptureSpendsOtherHold(r: Record, amount: int, code: Code, orderCurrency: Currency)
    requires Valid(r)
    requires Lookup(r.events, AuthorizeAction, code).None?
    requires r.errors == [] && r.currency == orderCurrency
    requires 0 < amount <= AmountRemaining(r) && amount <= r.amountAuthorized
    ensures var first := Capture(r, amount, code, orderCurrency);
      var second := Capture(first.record, amount, code, orderCurrency);
      && first.outcome == ReturnedCode(code)
      && second.outcome == ReturnedCode(code)
      && second.record.amountUsed == r.amountUsed + 2 * amount
      && second.record.amountAuthorized == r.amountAuthorized - amount
      && second.record.events
           == r.events + [Event(AuthorizeAction, amount, code), Event(CaptureAction, amount, code),
                          Event(CaptureAction, amount, code)]
  {
    CaptureFresh(r, amount, code, orderCurrency);
    var mid := Capture(r, amount, code, orderCurrency).record;
    assert Valid(mid) && mid.currency == orderCurrency && amount <= mid.amountAuthorized;
    assert Lookup(mid.events, AuthorizeAction, code).Some? by {
      assert mid.events[|r.events|] == Event(AuthorizeAction, amount, code);
    }
    CaptureSettles(mid, amount, code, orderCurrency);
    var held, settled := Event(AuthorizeAction, amount, code), Event(CaptureAction, amount, code);
    assert Capture(mid, amount, code, orderCurrency).record.events == mid.events + [settled];
    assert mid.events + [settled] == r.events + [held, settled, settled];
  }

  // ---------------------------------------------------------------- void

  /** Voiding a code that has no authorize event is refused and changes nothing else. */
  lemma VoidMissing(r: Record, code: Code)
    requires Lookup(r.events, AuthorizeAction, code).None?
    ensures Void(r, code) == Step(r.(errors := r.errors + [UnableToVoid(code)]), ReturnedFalse)
  {
  }

  /** Void releases the amount recorded on the code's authorize event and logs a void event
      with that amount; only a release that breaks the sum validation raises. */
  lemma VoidReleases(r: Record, code: Code)
    requires Valid(r)
    requires Lookup(r.events, AuthorizeAction, code).Some?
    ensures var held := Lookup(r.events, AuthorizeAction, code).value.amount;
      var s := Void(r, code);
      && s.outcome == (if r.amountUsed + r.amountAuthorized - held <= r.amount then ReturnedTrue else Raised)
      && (s.outcome == ReturnedTrue ==>
            && s.record.amountAuthorized == r.amountAuthorized - held
            && s.record.amountUsed == r.amountUsed && s.record.amount == r.amount
            && s.record.events == r.events + (if held == 0 then [] else [Event(VoidAction, held, code)]))
  {
  }

  /** Void is not idempotent: a second void of the same code releases the recorded amount
      again, so the authorized amount drops by twice the hold. */
  lemma {:induction false} VoidTwiceReleasesTwice(r: Record, code: Code)
    requires Valid(r)
    requires Lookup(r.events, AuthorizeAction, code).Some?
    requires Lookup(r.events, AuthorizeAction, code).value.amount >= 0
    ensures var held := Lookup(r.events, AuthorizeAction, code).value.amount;
      var once := Void(r, code);
      var twice := Void(once.record, code);
      && once.outcome == ReturnedTrue && twice.outcome == ReturnedTrue
      && twice.record.amountAuthorized == r.amountAuthorized - 2 * held
  {
    var held := Lookup(r.events, AuthorizeAction, code).value.amount;
    VoidReleases(r, code);
    var once := Void(r, code);
    LookupAppendFound(r.events, if held == 0 then [] else [Event(VoidAction, held, code)], AuthorizeAction, code);
    VoidReleases(once.record, code);
  }

  // ---------------------------------------------------------------- credit

  /** A foreign currency is refused before the capture event is even consulted. */
  lemma CreditCurrencyMismatch(r: Record, amount: int, code: Code, orderCurrency: Currency)
    requires r.currency != orderCurrency
    ensures Credit(r, amount, code, orderCurrency)
      == Step(r.(errors := r.errors + [CurrencyMismatch]), ReturnedFalse)
  {
  }

  /** Without a capture event for the code, or for more than it captured, credit is refused. */
  lemma CreditNoTarget(r: Record, amount: int, code: Code, orderCurrency: Currency)
    requires r.currency == orderCurrency
    requires Lookup(r.events, CaptureAction, code).None?
      || amount > Lookup(r.events, CaptureAction, code).value.amount
    ensures Credit(r, amount, code, orderCurrency)
      == Step(r.(errors := r.errors + [UnableToCredit(code)]), ReturnedFalse)
  {
  }

  /** Credit gives `amount` back to the used amount only and logs a credit event; it raises
      when the used amount would leave the validated range. */
  lemma CreditGivesBack(r: Record, amount: int, code: Code, orderCurrency: Currency)
    requires Valid(r)
    requires r.currency == orderCurrency
    requires Lookup(r.events, CaptureAction, code).Some?
    requires amount <= Lookup(r.events, CaptureAction, code).value.amount
    ensures var s := Credit(r, amount, code, orderCurrency);
      && s.outcome == (if Invariant(r.amount, r.amountUsed - amount, r.amountAuthorized)
                       then ReturnedTrue else Raised)
      && (s.outcome == ReturnedTrue ==>
            && s.record.amountUsed == r.amountUsed - amount
            && s.record.amountAuthorized == r.amountAuthorized && s.record.amount == r.amount
            && s.record.events == r.events + (if amount == 0 then [] else [Event(CreditAction, amount, code)]))
  {
  }

  /** Credit does not consume the capture event: afterwards the same capture is found, so
      repeated credits are bounded only by the used-amount validation. */
  lemma {:induction false} CreditKeepsCapture(r: Record, amount: int, code: Code, orderCurrency: Currency)
    requires Lookup(r.events, CaptureAction, code).Some?
    ensures Lookup(Credit(r, amount, code, orderCurrency).record.events, CaptureAction, code)
      == Lookup(r.events, CaptureAction, code)
  {
    var s := Credit(r, amount, code, orderCurrency);
    if s.record.events != r.events {
      assert s.record.events == r.events + [Event(CreditAction, amount, code)];
      LookupAppendFound(r.events, [Event(CreditAction, amount, code)], CaptureAction, code);
    }
  }

  /** Credit does not consume the capture event, so repeated credits on one code are bounded
      only by the used amount staying non-negative: two credits of up to the captured amount
      both succeed while the used amount covers them, used amount from other codes' captures
      included, and together give back more than was captured when `2 * amount` exceeds it. */
  lemma {:induction false} RepeatedCreditWhileUsedCovers(r: Record, amount: int, code: Code, orderCurrency: Currency)
    requires Valid(r)
    requires r.currency == orderCurrency
    requires Lookup(r.events, CaptureAction, code).Some?
    requires 0 <= amount <= Lookup(r.events, CaptureAction, code).value.amount
    requires 2 * amount <= r.amountUsed
    ensures var first := Credit(r, amount, code, orderCurrency);
      var second := Credit(first.record, amount, code, orderCurrency);
      && first.outcome == ReturnedTrue
      && second.outcome == ReturnedTrue
      && second.record.amountUsed == r.amountUsed - 2 * amount
      && second.record.amountAuthorized == r.amountAuthorized
  {
    CreditGivesBack(r, amount, code, orderCurrency);
    CreditKeepsCapture(r, amount, code, orderCurrency);
    var mid := Credit(r, amount, code, orderCurrency).record;
    assert Valid(mid) && mid.currency == orderCurrency;
    CreditGivesBack(mid, amount, code, orderCurrency);
  }

  /** Capture followed by a credit of the same amount returns the used amount to its value
      before the capture, and the authorized amount nets back to where it was. */
  lemma {:induction false} CaptureThenCredit(r: Record, amount: int, code: Code, orderCurrency: Currency)
    requires Valid(r)
    requires Lookup(r.events, AuthorizeAction, code).None? && Lookup(r.events, CaptureAction, code).None?
    requires r.errors == [] && r.currency == orderCurrency
    requires 0 < amount <= AmountRemaining(r) && r.amountAuthorized >= 0
    ensures var captured := Capture(r, amount, code, orderCurrency);
      var credited := Credit(captured.record, amount, code, orderCurrency);
      && captured.outcome == ReturnedCode(code) && credited.outcome == ReturnedTrue
      && credited.record.amountUsed == r.amountUsed
      && credited.record.amountAuthorized == r.amountAuthorized
  {
    CaptureFresh(r, amount, code, orderCurrency);
    var captured := Capture(r, amount, code, orderCurrency);
    var tail := [Event(AuthorizeAction, amount, code), Event(CaptureAction, amount, code)];
    LookupAppendMissing(r.events, tail, CaptureAction, code);
    assert IndexOf(tail, CaptureAction, Some(code)) == Some(1);
    CreditGivesBack(captured.record, amount, code, orderCurrency);
  }

  // ---------------------------------------------------------------- refusals

  /** A refused authorize, void or credit changes nothing but the error list. */
  lemma RefusalChangesOnlyErrors(r: Record, amount: int, code: Code, orderCurrency: Currency)
    ensures var s := Authorize(r, amount, orderCurrency, code);
      s.outcome == ReturnedFalse ==> s.record == r.(errors := s.record.errors)
    ensures var s := Void(r, code);
      s.outcome == ReturnedFalse ==> s.record == r.(errors := s.record.errors)
    ensures var s := Credit(r, amount, code, orderCurrency);
      s.outcome == ReturnedFalse ==> s.record == r.(errors := s.record.errors)
  {
  }

  /** A refused capture changes nothing but the error list as long as the authorized amount
      is not negative: a successful fresh authorize step then always leaves room to settle. */
  lemma {:induction false} CaptureRefusalChangesOnlyErrors(r: Record, amount: int, code: Code, orderCurrency: Currency)
    requires Valid(r) && r.amountAuthorized >= 0
    ensures var s := Capture(r, amount, code, orderCurrency);
      s.outcome == ReturnedFalse ==> s.record == r.(errors := s.record.errors)
  {
    var a := Authorize(r, amount, orderCurrency, code);
    if Lookup(r.events, AuthorizeAction, code).None? {
      AuthorizeOutcome(r, amount, orderCurrency, code);
      if a.outcome == ReturnedCode(code) {
        AuthorizeHolds(r, amount, orderCurrency, code);
        assert amount <= a.record.amountAuthorized && a.record.currency == orderCurrency;
      } else {
        RefusalChangesOnlyErrors(r, amount, code, orderCurrency);
      }
    }
  }

  // ---------------------------------------------------------------- the after-save hook

  /** A save that changes an amount while an action is set logs exactly one event carrying
      the action, its amount and its code; a save that changes nothing logs nothing unless
      the action is `eligible`. */
  lemma AcceptedChangeLogsOneEvent(r: Record, action: Action, code: Code, actionAmount: int,
                                   amountUsed: int, amountAuthorized: int)
    requires Invariant(r.amount, amountUsed, amountAuthorized)
    ensures var s := SaveFor(r, action, code, actionAmount, amountUsed, amountAuthorized);
      && s.outcome == ReturnedTrue
      && (amountUsed != r.amountUsed || amountAuthorized != r.amountAuthorized || action == EligibleAction ==>
            s.record.events == r.events + [Event(action, actionAmount, code)])
      && (amountUsed == r.amountUsed && amountAuthorized == r.amountAuthorized && action != EligibleAction ==>
            s.record.events == r.events)
  {
  }

  /** An accepted `update_attributes!` stores the new amounts and clears the errors; apart
      from the log, nothing else of the record changes, and the log is what the after-save
      hook writes for the saved record, told whether any amount changed. */
  lemma SaveChangesOnlyAmounts(r: Record, amount: int, amountUsed: int, amountAuthorized: int, fallbackCode: Code)
    requires Invariant(amount, amountUsed, amountAuthorized)
    ensures var s := Save(r, amount, amountUsed, amountAuthorized, fallbackCode);
      && s.outcome == ReturnedTrue
      && s.record.(events := r.events)
           == r.(amount := amount, amountUsed := amountUsed, amountAuthorized := amountAuthorized, errors := [])
      && s.record.events
           == StoreEvent(r.(amount := amount, amountUsed := amountUsed, amountAuthorized := amountAuthorized, errors := []),
                         amount != r.amount || amountUsed != r.amountUsed || amountAuthorized != r.amountAuthorized,
                         fallbackCode)
  {
  }

  /** A save without an action that changes any amount rewrites the first allocation event
      in place: it carries `action_amount`, else the new total, and keeps its code unless an
      authorization code is set. The log keeps its length and every other event. */
  lemma {:induction false} ActionlessSaveRewritesAllocation(r: Record, amount: int, amountUsed: int,
                                                            amountAuthorized: int, fallbackCode: Code)
    requires r.action.None?
    requires Invariant(amount, amountUsed, amountAuthorized)
    requires amount != r.amount || amountUsed != r.amountUsed || amountAuthorized != r.amountAuthorized
    requires IndexOf(r.events, AllocationAction, None).Some?
    ensures var s := Save(r, amount, amountUsed, amountAuthorized, fallbackCode);
      var i := IndexOf(r.events, AllocationAction, None).value;
      && |s.record.events| == |r.events|
      && s.record.events[i]
           == Event(AllocationAction, r.actionAmount.GetOr(amount), r.authorizationCode.GetOr(r.events[i].authorizationCode))
      && (forall j :: 0 <= j < |r.events| && j != i ==> s.record.events[j] == r.events[j])
  {
  }

  /** A save without an action that changes any amount, on a log with no allocation event,
      appends one carrying `action_amount`, else the new total, and the authorization code,
      else a generated one. */
  lemma ActionlessSaveAddsAllocation(r: Record, amount: int, amountUsed: int,
                                     amountAuthorized: int, fallbackCode: Code)
    requires r.action.None?
    requires Invariant(amount, amountUsed, amountAuthorized)
    requires amount != r.amount || amountUsed != r.amountUsed || amountAuthorized != r.amountAuthorized
    requires IndexOf(r.events, AllocationAction, None).None?
    ensures Save(r, amount, amountUsed, amountAuthorized, fallbackCode).record.events
      == r.events + [Event(AllocationAction, r.actionAmount.GetOr(amount), r.authorizationCode.GetOr(fallbackCode))]
  {
  }
}
