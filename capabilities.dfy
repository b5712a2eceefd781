/** The store credit's capability queries over the payment that uses it as its source.
    The payment and its order belong to the surrounding shop; only the parts these queries
    read are modelled: the payment's state, the order's payment state and the payment's
    creditable amount (in cents). */
module PaymentCapabilities {

  /** The name of any payment state other than the three the queries test. */
  type OtherStateName = name: string | name != "checkout" && name != "pending" && name != "completed"
    witness "failed"

  datatype PaymentState = Checkout | Pending | Completed | OtherState(name: OtherStateName)

  datatype Payment = Payment(state: PaymentState, orderPaymentState: string, creditAllowed: int)

  /** `can_void?`: the payment is pending; such a payment is neither in checkout nor
      completed. */
  function CanVoid(p: Payment): (b: bool)
    ensures b ==> p.state != Checkout && p.state != Completed
  {
    p.state == Pending
  }

  /** `can_capture?`: the payment is pending or still in checkout. Whatever can be voided
      can be captured, and the only other payments that can be captured are in checkout. */
  function CanCapture(p: Payment): (b: bool)
    ensures b <==> CanVoid(p) || p.state == Checkout
    ensures b && !CanVoid(p) <==> p.state == Checkout
  {
    p.state == Pending || p.state == Checkout
  }

  /** `can_credit?`: the payment is completed, its order owes credit, and something is left
      to credit. A payment that can be credited can be neither captured nor voided. */
  function CanCredit(p: Payment): (b: bool)
    ensures b ==> !CanCapture(p) && !CanVoid(p)
  {
    p.state == Completed && p.orderPaymentState == "credit_owed" && p.creditAllowed > 0
  }
}
