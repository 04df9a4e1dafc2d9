/**
 * The decision of the payment confirmation endpoint (`confirm_payment` in
 * main.py): a card number that fails the Luhn check is declined, any other
 * is confirmed with a fresh transaction id. No other field is inspected.
 */
module Payments {
  import opened Wrappers
  import Luhn

  /** The confirmation request; only the card number is ever read. */
  datatype PaymentConfirmIn = PaymentConfirmIn(
    clientSecret: string,
    cardNumber: string,
    expMonth: int,
    expYear: int,
    cvc: string)

  /** The two statuses, "succeeded" and "failed" in the response. */
  datatype Status = Succeeded | Failed

  datatype PaymentResult = PaymentResult(
    status: Status,
    transactionId: Option<string>,
    message: Option<string>)

  const INVALID_CARD_MESSAGE := "Invalid card number"
  const CONFIRMED_MESSAGE := "Payment confirmed"
  const TRANSACTION_PREFIX := "txn_"
  const TRANSACTION_HEX_LENGTH := 12

  /**
   * The transaction id built from a random hexadecimal text: the prefix
   * followed by at most its first twelve characters.
   */
  function TransactionId(uuidHex: string): (id: string)
    ensures |id| == |TRANSACTION_PREFIX| + (if |uuidHex| < TRANSACTION_HEX_LENGTH then |uuidHex| else TRANSACTION_HEX_LENGTH)
    ensures id[..|TRANSACTION_PREFIX|] == TRANSACTION_PREFIX
    ensures id[|TRANSACTION_PREFIX|..] <= uuidHex
  {
    TRANSACTION_PREFIX + (if |uuidHex| <= TRANSACTION_HEX_LENGTH then uuidHex else uuidHex[..TRANSACTION_HEX_LENGTH])
  }

  /**
   * `confirm_payment`, with `uuidHex` standing for the random `uuid4().hex`:
   * failed exactly when the card number is not Luhn-valid.
   */
  method ConfirmPayment(payload: PaymentConfirmIn, uuidHex: string) returns (r: PaymentResult)
    ensures r.status == Failed <==> !Luhn.IsValid(payload.cardNumber)
    ensures r.status == Failed ==>
              r.transactionId == None && r.message == Some(INVALID_CARD_MESSAGE)
    ensures r.status == Succeeded ==>
              r.transactionId == Some(TransactionId(uuidHex)) && r.message == Some(CONFIRMED_MESSAGE)
  {
    var ok := Luhn.LuhnCheck(payload.cardNumber);
    if !ok {
      return PaymentResult(Failed, None, Some(INVALID_CARD_MESSAGE));
    }
    var txnId := TransactionId(uuidHex);
    return PaymentResult(Succeeded, Some(txnId), Some(CONFIRMED_MESSAGE));
  }
}
