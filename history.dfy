/** Any sequence of calls on one store credit: the four payment verbs, an assignment of the
    public scratch attributes, and a plain `update_attributes!` of the amounts (an admin
    edit). Whatever the sequence, every stored state passes validation, the currency never
    changes, and the event log only grows, apart from the allocation event that an
    action-less save rewrites in place. */
module History {
  import opened Ledger

  datatype Command =
    | AuthorizeCall(amount: int, orderCurrency: Currency, code: Code)
    | CaptureCall(amount: int, code: Code, orderCurrency: Currency)
    | VoidCall(code: Code)
    | CreditCall(amount: int, code: Code, orderCurrency: Currency)
    | AssignScratch(action: Option<Action>, authorizationCode: Option<Code>, actionAmount: Option<int>)
    | UpdateCall(newAmount: int, newUsed: int, newAuthorized: int, fallbackCode: Code)

  /** The payment verbs, as opposed to direct writes of attributes. */
  predicate IsVerb(c: Command) {
    c.AuthorizeCall? || c.CaptureCall? || c.VoidCall? || c.CreditCall?
  }

  /** One call; every kind of call keeps the validated invariant. */
  function Apply(r: Record, c: Command): (s: Step)
    ensures Valid(r) ==> Valid(s.record)
  {
    match c
    case AuthorizeCall(amount, orderCurrency, code) => Authorize(r, amount, orderCurrency, code)
    case CaptureCall(amount, code, orderCurrency) => Capture(r, amount, code, orderCurrency)
    case VoidCall(code) => Void(r, code)
    case CreditCall(amount, code, orderCurrency) => Credit(r, amount, code, orderCurrency)
    case AssignScratch(action, authorizationCode, actionAmount) =>
      Step(r.(action := action, authorizationCode := authorizationCode, actionAmount := actionAmount), ReturnedTrue)
    case UpdateCall(newAmount, newUsed, newAuthorized, fallbackCode) =>
      Save(r, newAmount, newUsed, newAuthorized, fallbackCode)
  }

  /** The record after the calls, one after the other; a call that raises leaves the stored
      state as it was and the next call goes ahead. However many calls are made, the stored
      amounts keep satisfying the validations. */
  function Run(r: Record, calls: seq<Command>): (after: Record)
    ensures Valid(r) ==> Valid(after)
    decreases |calls|
  {
    if calls == [] then r else Run(Apply(r, calls[0]).record, calls[1..])
  }

  /** One call never shortens the log, adds at most two events, and leaves every event
      other than an allocation event where it was. */
  lemma ApplyKeepsHistory(r: Record, c: Command)
    ensures var log := Apply(r, c).record.events;
      && |r.events| <= |log| <= |r.events| + 2
      && forall i :: 0 <= i < |r.events| && r.events[i].action != AllocationAction ==> log[i] == r.events[i]
  {
    if IsVerb(c) {
      VerbAppends(r, c);
    }
  }

  /** The log is append-only apart from the allocation event: across any calls, every other
      event keeps its position and contents. */
  lemma {:induction false} RunKeepsHistory(r: Record, calls: seq<Command>)
    ensures var log := Run(r, calls).events;
      && |r.events| <= |log|
      && forall i :: 0 <= i < |r.events| && r.events[i].action != AllocationAction ==> log[i] == r.events[i]
    decreases |calls|
  {
    if calls != [] {
      var next := Apply(r, calls[0]).record;
      ApplyKeepsHistory(r, calls[0]);
      RunKeepsHistory(next, calls[1..]);
    }
  }

  /** A payment verb sets the action before it saves, so it only ever appends to the log and
      never touches the total or the currency. */
  lemma VerbAppends(r: Record, c: Command)
    requires IsVerb(c)
    ensures var after := Apply(r, c).record;
      && r.events <= after.events && |after.events| <= |r.events| + 2
      && after.amount == r.amount && after.currency == r.currency
  {
  }

  /** Under payment verbs alone the log is strictly append-only and the total and currency
      are fixed. */
  lemma {:induction false} VerbsAppendOnly(r: Record, calls: seq<Command>)
    requires forall c :: c in calls ==> IsVerb(c)
    ensures var after := Run(r, calls);
      && r.events <= after.events
      && after.amount == r.amount && after.currency == r.currency
    decreases |calls|
  {
    if calls != [] {
      var next := Apply(r, calls[0]).record;
      VerbAppends(r, calls[0]);
      VerbsAppendOnly(next, calls[1..]);
    }
  }
}
