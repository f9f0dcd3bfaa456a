/** The rows of the payment database.

    `transactions` and `balance_calibrations` are kept in one append-only sequence, in the order in
    which their rows were inserted; the row identifier of a transaction is its position there. No
    statement of the program updates or deletes such a row. `orders`, `raw_messages` and
    `verification_attempts` are sequences of their own, again with the position as identifier.
    Money is in hundredths, as NUMERIC(12,2) stores it; time is the server's clock. */
module Tables {
  import opened Prelude

  type Money = int

  datatype Direction = Credit | Debit

  datatype Transaction = Transaction(
    provider: nat, trxId: string, business: nat, device: nat, raw: nat,
    amount: Money, balanceAfter: Option<Money>, direction: Direction,
    effective: Option<Money>, receivedAt: int)
  {
    /** What order matching compares: the script's amount when it set one. */
    function Effective(): Money {
      if effective.Some? then effective.value else amount
    }

    /** What the movement does to the account; always the raw amount. */
    function Delta(): Money {
      if direction.Debit? then -amount else amount
    }
  }

  datatype Point =
    | Tx(tx: Transaction)
    | Calibration(device: nat, provider: nat, balance: Money, at: int)
  {
    function Device(): nat {
      if Tx? then tx.device else device
    }

    function Provider(): nat {
      if Tx? then tx.provider else provider
    }

    function At(): int {
      if Tx? then tx.receivedAt else at
    }

    function Stated(): Option<Money> {
      if Tx? then tx.balanceAfter else Some(balance)
    }
  }

  datatype Status = Pending | Paid | Expired | Cancelled

  datatype Order = Order(
    business: nat, externalId: string, expected: Money, status: Status,
    matched: Option<nat>, expiresAt: Option<int>, paidAt: Option<int>)

  datatype ParseStatus =
    | Unparsed
    | Parsed(provider: nat, pattern: string, transaction: nat)
    | Unmatched
    | ParseError
    | Skipped

  datatype RawMessage = RawMessage(
    clientId: nat, device: nat, business: nat, sender: string, body: string, status: ParseStatus)

  /** Rows of one account: the balance trail of a device and a provider. */
  predicate SameTrail(p: Point, q: Point) {
    p.Device() == q.Device() && p.Provider() == q.Provider()
  }

  /** Row positions agree with the server's clock. */
  ghost predicate Chronological(points: seq<Point>) {
    forall i, j :: 0 <= i < j < |points| ==> points[i].At() <= points[j].At()
  }
}
