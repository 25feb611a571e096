/** The refund ledger: one locked operation on customers, refunds and idempotency keys. Money is in
    integer cents. */
module Billing {
  import opened Scanner

  datatype Account = Account(status: string, balance: int)

  datatype Refund = Refund(
    refundId: nat, customerId: string, cents: int, reason: string, key: Option<string>, fingerprint: string)

  datatype Store = Store(accounts: map<string, Account>, refunds: seq<Refund>, byKey: map<string, Refund>)

  datatype Request = Request(customerId: string, cents: int, reason: string, key: Option<string>, refundId: nat)

  datatype Reply =
    | Created(refund: Refund)
    | Replayed(refund: Refund)
    | KeyConflict
    | CustomerNotFound
    | NotActive
    | OverBalance

  // The text that a key is bound to

  function Digit(d: nat): char
    requires d < 10
  {
    '0' + d as char
  }

  function Decimal(n: nat): string {
    if n < 10 then [Digit(n)] else Decimal(n / 10) + [Digit(n % 10)]
  }

  function Abs(n: int): nat { if n < 0 then -n else n }

  /** `{amount:.2f}` */
  function Money(cents: int): string {
    (if cents < 0 then "-" else "") + Decimal(Abs(cents) / 100) + "."
    + [Digit(Abs(cents) % 100 / 10), Digit(Abs(cents) % 100 % 10)]
  }

  /** What is hashed; the hash is taken to be free of collisions. */
  function Fingerprint(customerId: string, cents: int, reason: string): string {
    customerId + "|" + Money(cents) + "|" + reason
  }

  /** An empty key is no key. */
  predicate Keyed(key: Option<string>) {
    key.Some? && key.value != ""
  }

  /** `create_refund` */
  function Create(s: Store, q: Request): (Store, Reply) {
    var fingerprint := Fingerprint(q.customerId, q.cents, q.reason);
    if Keyed(q.key) && q.key.value in s.byKey then
      var existing := s.byKey[q.key.value];
      (s, if existing.fingerprint != fingerprint then KeyConflict else Replayed(existing))
    else if q.customerId !in s.accounts then (s, CustomerNotFound)
    else
      var account := s.accounts[q.customerId];
      if account.status != "active" then (s, NotActive)
      else if q.cents > account.balance then (s, OverBalance)
      else
        var refund := Refund(q.refundId, q.customerId, q.cents, q.reason, q.key, fingerprint);
        (Store(s.accounts[q.customerId := account.(balance := account.balance - q.cents)],
               s.refunds + [refund],
               if Keyed(q.key) then s.byKey[q.key.value := refund] else s.byKey),
         Created(refund))
  }

  function Run(s: Store, requests: seq<Request>): Store {
    if requests == [] then s
    else Create(Run(s, requests[..|requests| - 1]), requests[|requests| - 1]).0
  }

  class Customer {
    const customerId: string
    var status: string
    var balance: int

    constructor (customerId: string, status: string, balance: int)
      ensures this.customerId == customerId && this.status == status && this.balance == balance
    {
      this.customerId, this.status, this.balance := customerId, status, balance;
    }
  }

  class BillingStore {
    var customers: map<string, Customer>
    var refunds: seq<Refund>
    var byKey: map<string, Refund>

    /** No customer object is stored under two identifiers. */
    ghost predicate Valid()
      reads this
    {
      forall a, b | a in customers && b in customers && customers[a] == customers[b] :: a == b
    }

    ghost function View(): Store
      reads this, customers.Values
    {
      Store(map id | id in customers :: Account(customers[id].status, customers[id].balance), refunds, byKey)
    }

    constructor ()
      ensures Valid() && View() == Store(map[], [], map[])
    {
      customers, refunds, byKey := map[], [], map[];
    }

    method CreateRefund(customerId: string, cents: int, reason: string, key: Option<string>, refundId: nat)
      returns (reply: Reply)
      requires Valid()
      modifies this, customers.Values
      ensures Valid() && customers == old(customers)
      ensures (View(), reply) == Create(old(View()), Request(customerId, cents, reason, key, refundId))
    {
      var fingerprint := Fingerprint(customerId, cents, reason);
      if Keyed(key) && key.value in byKey {
        var existing := byKey[key.value];
        if existing.fingerprint != fingerprint {
          return KeyConflict;
        }
        return Replayed(existing);
      }
      if customerId !in customers {
        return CustomerNotFound;
      }
      var customer := customers[customerId];
      if customer.status != "active" {
        return NotActive;
      }
      if cents > customer.balance {
        return OverBalance;
      }
      var refund := Refund(refundId, customerId, cents, reason, key, fingerprint);
      customer.balance := customer.balance - refund.cents;
      refunds := refunds + [refund];
      if Keyed(key) {
        byKey := byKey[key.value := refund];
      }
      assert View().accounts ==
             old(View()).accounts[customerId := old(View()).accounts[customerId].(balance := customer.balance)];
      return Created(refund);
    }
  }
}
