/** Worked histories of one store credit, in cents: a 100.00 USD credit that is authorized,
    captured and credited back, a 50.00 credit asked for too much, and the behaviours of the
    source that a reader might not expect (double void, a refused capture that keeps its
    hold, a stale scratch action, an admin edit of the allocation). Each state is written
    out as a record, and each lemma proves one call takes one state to the next. */
module Scenarios {
  import opened Ledger
  import opened LedgerProperties

  const Usd: Currency := "USD"
  const Allocated := Event(AllocationAction, 10000, "alloc")
  const Held := Event(AuthorizeAction, 4000, "auth-1")
  const Captured := Event(CaptureAction, 4000, "auth-1")
  const Credited := Event(CreditAction, 4000, "auth-1")
  const Voided := Event(VoidAction, 4000, "auth-1")

  const Funded := Record(10000, 0, 0, Usd, [Allocated], [], None, None, None)
  const Authorized := Record(10000, 0, 4000, Usd, [Allocated, Held], [],
                             Some(AuthorizeAction), Some("auth-1"), Some(4000))
  const Settled := Record(10000, 4000, 0, Usd, [Allocated, Held, Captured], [],
                          Some(CaptureAction), Some("auth-1"), Some(4000))
  const Refunded := Record(10000, 0, 0, Usd, [Allocated, Held, Captured, Credited], [],
                           Some(CreditAction), Some("auth-1"), Some(4000))
  const VoidedOnce := Record(10000, 0, 0, Usd, [Allocated, Held, Voided], [],
                             Some(VoidAction), Some("auth-1"), Some(4000))
  const Drained := Record(10000, 0, -4000, Usd, [Allocated, Held, Voided, Voided], [],
                          Some(VoidAction), Some("auth-1"), Some(4000))

  /** Creating a 100.00 USD credit logs its allocation. */
  lemma CreateHundred()
    ensures Create(10000, Usd, "alloc") == Step(Funded, ReturnedTrue)
  {
  }

  /** Authorizing 40.00 of 100.00 holds it, leaves 60.00 and logs one authorize event. */
  lemma AuthorizeForty()
    ensures Authorize(Funded, 4000, Usd, "auth-1") == Step(Authorized, ReturnedCode("auth-1"))
    ensures AmountRemaining(Authorized) == 6000
  {
    AuthorizeHolds(Funded, 4000, Usd, "auth-1");
  }

  /** Capturing the 40.00 replays the authorization, moves the amount to used and logs a
      capture event. */
  lemma CaptureForty()
    ensures Capture(Authorized, 4000, "auth-1", Usd) == Step(Settled, ReturnedCode("auth-1"))
  {
    assert Lookup(Authorized.events, AuthorizeAction, "auth-1") == Some(Held);
    CaptureSettles(Authorized, 4000, "auth-1", Usd);
  }

  /** A second capture of the same code is refused for lack of authorized amount. */
  lemma CaptureAgainRefused()
    ensures Capture(Settled, 4000, "auth-1", Usd)
      == Step(Settled.(errors := [InsufficientAuthorizedAmount]), ReturnedFalse)
  {
    assert Held in Settled.events;
    CaptureExceedsAuthorization(Settled, 4000, "auth-1", Usd);
  }

  /** Crediting the 40.00 back returns the used amount to zero and logs a credit event. */
  lemma CreditForty()
    ensures Credit(Settled, 4000, "auth-1", Usd) == Step(Refunded, ReturnedTrue)
  {
    assert Lookup(Settled.events, CaptureAction, "auth-1") == Some(Captured);
    CreditGivesBack(Settled, 4000, "auth-1", Usd);
  }

  /** The credit did not consume the capture event, so a further credit of 1.00 on the same
      code passes the lookup and raises on the used-amount validation instead. */
  lemma CreditAgainRaises()
    ensures Credit(Refunded, 100, "auth-1", Usd)
      == Step(Refunded.(errors := [AmountUsedNegative], actionAmount := Some(100)), Raised)
  {
    assert Lookup(Refunded.events, CaptureAction, "auth-1") == Some(Captured);
  }

  /** Asking 60.00 of a 50.00 credit is refused for insufficient funds and changes nothing
      but the error list; those errors then make an affordable authorize fail as well. */
  lemma OverdrawnThenSticky()
    ensures var small := Create(5000, Usd, "alloc").record;
      var refused := Authorize(small, 6000, Usd, "auth-2");
      && refused == Step(small.(errors := [InsufficientFunds, InsufficientAuthorizedAmount]), ReturnedFalse)
      && Authorize(refused.record, 1000, Usd, "auth-3").outcome == ReturnedFalse
  {
    var small := Create(5000, Usd, "alloc").record;
    AuthorizeInsufficientFunds(small, 6000, Usd, "auth-2");
    AuthorizeStickyErrors(Authorize(small, 6000, Usd, "auth-2").record, 1000, Usd, "auth-3");
  }

  /** Voiding "auth-1" releases the 40.00 held and logs a void event. */
  lemma VoidForty()
    ensures Void(Authorized, "auth-1") == Step(VoidedOnce, ReturnedTrue)
  {
    assert Lookup(Authorized.events, AuthorizeAction, "auth-1") == Some(Held);
    VoidReleases(Authorized, "auth-1");
  }

  /** Voiding "auth-1" again releases the 40.00 a second time: the authorized amount goes
      negative and the record still passes validation. */
  lemma VoidFortyAgain()
    ensures Void(VoidedOnce, "auth-1") == Step(Drained, ReturnedTrue)
    ensures Valid(Drained)
  {
    assert Lookup(VoidedOnce.events, AuthorizeAction, "auth-1") == Some(Held) by {
      LookupAppendFound(Authorized.events, [Voided], AuthorizeAction, "auth-1");
      assert Authorized.events + [Voided] == VoidedOnce.events;
    }
    VoidReleases(VoidedOnce, "auth-1");
  }

  /** With a negative authorized amount, a capture can be refused after its authorize step
      has already stored a hold and an event: a refusal that is not free of side effects. */
  lemma RefusedCaptureKeepsHold()
    ensures var s := Capture(Drained, 1000, "auth-9", Usd);
      && s.outcome == ReturnedFalse
      && s.record.amountAuthorized == -3000
      && s.record.events == Drained.events + [Event(AuthorizeAction, 1000, "auth-9")]
  {
    assert Lookup(Drained.events, AuthorizeAction, "auth-9").None?;
    AuthorizeHolds(Drained, 1000, Usd, "auth-9");
  }

  /** The scratch attributes are never cleared: an amount edit saved on the same object after
      an authorize logs another authorize event with the old code and amount. */
  lemma StaleActionAfterAuthorize()
    ensures var s := Save(Authorized, 12000, 0, 4000, "gen");
      && s.outcome == ReturnedTrue
      && s.record.events == Authorized.events + [Held]
  {
  }

  /** On an object with no action set, an amount edit rewrites the allocation event in place
      with the new total and keeps its code. */
  lemma AdminEditRewritesAllocation()
    ensures var s := Save(Funded, 12000, 0, 0, "gen");
      && s.outcome == ReturnedTrue
      && s.record.events == [Event(AllocationAction, 12000, "alloc")]
  {
  }
}
