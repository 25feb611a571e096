/** Conservation of money and idempotent replay. */
module BillingTheorems {
  import opened Scanner
  import opened Billing

  // The encoding

  function ValueOf(s: string): nat {
    if s == "" then 0
    else ValueOf(s[..|s| - 1]) * 10 + (if s[|s| - 1] >= '0' then s[|s| - 1] as int - '0' as int else 0)
  }

  predicate AllDigits(s: string) {
    s == "" || ('0' <= s[|s| - 1] <= '9' && AllDigits(s[..|s| - 1]))
  }

  lemma {:induction false} DecimalReadsBack(n: nat)
    ensures ValueOf(Decimal(n)) == n && AllDigits(Decimal(n)) && Decimal(n) != ""
  {
    if n >= 10 {
      DecimalReadsBack(n / 10);
      assert Decimal(n)[..|Decimal(n)| - 1] == Decimal(n / 10);
    } else {
      assert Decimal(n)[..0] == "";
    }
  }

  lemma {:induction false} DigitsOnly(s: string, c: char)
    requires AllDigits(s) && !('0' <= c <= '9')
    ensures c !in s
  {
    if s != "" {
      DigitsOnly(s[..|s| - 1], c);
      assert s == s[..|s| - 1] + [s[|s| - 1]];
    }
  }

  lemma MoneyParts(cents: int)
    ensures var m, sign := Money(cents), if cents < 0 then 1 else 0;
            && |m| >= 3 + sign && (m[0] == '-' <==> cents < 0)
            && m[sign..|m| - 3] == Decimal(Abs(cents) / 100)
            && m[|m| - 2] == Digit(Abs(cents) % 100 / 10) && m[|m| - 1] == Digit(Abs(cents) % 100 % 10)
  {
    DecimalReadsBack(Abs(cents) / 100);
    DigitsOnly(Decimal(Abs(cents) / 100), '-');
    var m, sign := Money(cents), if cents < 0 then "-" else "";
    assert m == sign + Decimal(Abs(cents) / 100) + "." + [Digit(Abs(cents) % 100 / 10), Digit(Abs(cents) % 100 % 10)];
    assert sign == "" ==> m[0] in Decimal(Abs(cents) / 100);
  }

  lemma CentsFromParts(a: nat, b: nat)
    requires a / 100 == b / 100 && a % 100 / 10 == b % 100 / 10 && a % 100 % 10 == b % 100 % 10
    ensures a == b
  {
    var r, s := a % 100, b % 100;
    assert r == r / 10 * 10 + r % 10 && s == s / 10 * 10 + s % 10;
  }

  /** Different amounts are written differently. */
  lemma MoneyInjective(a: int, b: int)
    requires Money(a) == Money(b)
    ensures a == b
  {
    MoneyParts(a);
    MoneyParts(b);
    DecimalReadsBack(Abs(a) / 100);
    DecimalReadsBack(Abs(b) / 100);
    CentsFromParts(Abs(a), Abs(b));
  }

  lemma MoneyHasNoBar(cents: int)
    ensures '|' !in Money(cents)
  {
    DecimalReadsBack(Abs(cents) / 100);
    DigitsOnly(Decimal(Abs(cents) / 100), '|');
  }

  /** Texts before the first separator. */
  lemma FirstBar(a: string, x: string, b: string, y: string)
    requires '|' !in a && '|' !in b && a + "|" + x == b + "|" + y
    ensures a == b && x == y
  {
    var s := a + "|" + x;
    assert s[|a|] == '|' && s[|b|] == '|';
    assert forall i | 0 <= i < |a| :: s[i] == a[i] && s[i] in a;
    assert forall i | 0 <= i < |b| :: s[i] == b[i] && s[i] in b;
    assert a == s[..|a|] && b == s[..|b|] && x == s[|a| + 1..] && y == s[|b| + 1..];
  }

  /** Identifiers without the separator make the encoding unambiguous, whatever the reasons contain. */
  lemma FingerprintInjective(id: string, cents: int, reason: string, id': string, cents': int, reason': string)
    requires '|' !in id && '|' !in id'
    ensures Fingerprint(id, cents, reason) == Fingerprint(id', cents', reason') <==>
            id == id' && cents == cents' && reason == reason'
  {
    if Fingerprint(id, cents, reason) == Fingerprint(id', cents', reason') {
      var x, y := Money(cents) + "|" + reason, Money(cents') + "|" + reason';
      assert Fingerprint(id, cents, reason) == id + "|" + x && Fingerprint(id', cents', reason') == id' + "|" + y;
      FirstBar(id, x, id', y);
      MoneyHasNoBar(cents);
      MoneyHasNoBar(cents');
      FirstBar(Money(cents), reason, Money(cents'), reason');
      MoneyInjective(cents, cents');
    }
  }

  /** `^CUST-[0-9]{5}$` */
  predicate ValidId(id: string) {
    |id| == 10 && id[..5] == "CUST-" && forall i | 5 <= i < 10 :: '0' <= id[i] <= '9'
  }

  lemma ValidIdHasNoBar(id: string)
    requires ValidId(id)
    ensures '|' !in id
  {
    assert forall i | 0 <= i < 5 :: id[i] == id[..5][i];
  }

  /** With the separator in an identifier, two different requests collide. */
  lemma FingerprintCollides(id: string, cents: int, reason: string)
    ensures var id' := id + "|" + Money(cents);
            id != id' && Fingerprint(id, cents, Money(cents) + "|" + reason) == Fingerprint(id', cents, reason)
  {
  }

  // Money

  function Refunded(refunds: seq<Refund>, id: string): int {
    if refunds == [] then 0
    else Refunded(refunds[..|refunds| - 1], id)
         + if refunds[|refunds| - 1].customerId == id then refunds[|refunds| - 1].cents else 0
  }

  lemma {:induction false} AccountsStay(s: Store, requests: seq<Request>)
    ensures Run(s, requests).accounts.Keys == s.accounts.Keys
    decreases |requests|
  {
    if requests != [] {
      AccountsStay(s, requests[..|requests| - 1]);
    }
  }

  lemma RefundConserves(s: Store, q: Request, id: string)
    requires id in s.accounts
    ensures var s' := Create(s, q).0;
            && id in s'.accounts
            && s'.accounts[id].balance + Refunded(s'.refunds, id) == s.accounts[id].balance + Refunded(s.refunds, id)
            && (s.accounts[id].balance >= 0 ==> s'.accounts[id].balance >= 0)
  {
    var s' := Create(s, q).0;
    if s'.refunds != s.refunds {
      assert s'.refunds[..|s'.refunds| - 1] == s.refunds;
    }
  }

  /** In every run, a customer's balance and refunds together stay what they were, and a balance that
      was not negative never becomes so. */
  lemma {:induction false} MoneyIsConserved(s: Store, requests: seq<Request>, id: string)
    requires id in s.accounts
    ensures var s' := Run(s, requests);
            && id in s'.accounts
            && s'.accounts[id].balance + Refunded(s'.refunds, id) == s.accounts[id].balance + Refunded(s.refunds, id)
            && (s.accounts[id].balance >= 0 ==> s'.accounts[id].balance >= 0)
    decreases |requests|
  {
    if requests != [] {
      MoneyIsConserved(s, requests[..|requests| - 1], id);
      RefundConserves(Run(s, requests[..|requests| - 1]), requests[|requests| - 1], id);
    }
  }

  /** A refund that is not a repetition is made exactly when the customer exists, is active and has the
      balance for it, and each way to refuse it has its own reason; when it is made, it is recorded last, and
      no other account or key changes. */
  lemma RefundDecision(s: Store, q: Request)
    requires !(Keyed(q.key) && q.key.value in s.byKey)
    ensures var (s', reply) := Create(s, q); var id := q.customerId;
            && (reply == CustomerNotFound <==> id !in s.accounts)
            && (reply == NotActive <==> id in s.accounts && s.accounts[id].status != "active")
            && (reply == OverBalance <==>
                  id in s.accounts && s.accounts[id].status == "active" && q.cents > s.accounts[id].balance)
            && (reply.Created? <==>
                  id in s.accounts && s.accounts[id].status == "active" && q.cents <= s.accounts[id].balance)
            && (!reply.Created? ==> s' == s)
            && (reply.Created? ==>
                  && s'.refunds == s.refunds + [reply.refund] && Refunded([reply.refund], id) == q.cents
                  && s'.accounts[id].balance == s.accounts[id].balance - q.cents
                  && (forall other | other in s.accounts && other != id :: s'.accounts[other] == s.accounts[other])
                  && (forall key | key != "" && Some(key) != q.key ::
                        && (key in s'.byKey <==> key in s.byKey)
                        && (key in s.byKey ==> s'.byKey[key] == s.byKey[key])))
  {
    var r := Create(s, q).1;
    if r.Created? {
      assert [r.refund][..0] == [];
    }
  }

  // Keys

  function WithKey(refunds: seq<Refund>, key: string): nat {
    if refunds == [] then 0
    else WithKey(refunds[..|refunds| - 1], key) + if refunds[|refunds| - 1].key == Some(key) then 1 else 0
  }

  /** Each key stands for one refund, which is on record, was made for an existing customer, and carries
      the fingerprint of its own request. */
  ghost predicate KeysSound(s: Store) {
    && (forall key | key in s.byKey ::
          var refund := s.byKey[key];
          && key != "" && refund.key == Some(key) && refund in s.refunds && refund.customerId in s.accounts
          && refund.fingerprint == Fingerprint(refund.customerId, refund.cents, refund.reason))
    && (forall key | key != "" :: WithKey(s.refunds, key) == if key in s.byKey then 1 else 0)
  }

  lemma KeysSoundStep(s: Store, q: Request)
    requires KeysSound(s)
    ensures KeysSound(Create(s, q).0)
  {
    var s' := Create(s, q).0;
    if s'.refunds != s.refunds {
      assert s'.refunds[..|s'.refunds| - 1] == s.refunds;
      assert s'.refunds[|s'.refunds| - 1] in s'.refunds;
      assert forall refund | refund in s.refunds :: refund in s'.refunds;
    }
  }

  /** In every run from a store without refunds, each key has at most one refund, and it is the one on
      record. */
  lemma {:induction false} KeysStaySound(accounts: map<string, Account>, requests: seq<Request>)
    ensures KeysSound(Run(Store(accounts, [], map[]), requests))
    decreases |requests|
  {
    if requests != [] {
      KeysStaySound(accounts, requests[..|requests| - 1]);
      KeysSoundStep(Run(Store(accounts, [], map[]), requests[..|requests| - 1]), requests[|requests| - 1]);
    }
  }

  /** Customers keep their status. */
  lemma {:induction false} StatusStays(s: Store, requests: seq<Request>, id: string)
    requires id in s.accounts
    ensures id in Run(s, requests).accounts && Run(s, requests).accounts[id].status == s.accounts[id].status
    decreases |requests|
  {
    if requests != [] {
      StatusStays(s, requests[..|requests| - 1], id);
    }
  }

  /** What is left of a customer's balance after the refunds on record. */
  function Left(accounts: map<string, Account>, refunds: seq<Refund>, id: string): int
    requires id in accounts
  {
    accounts[id].balance - Refunded(refunds, id)
  }

  predicate Repeats(refunds: seq<Refund>, q: Request) {
    exists refund <- refunds :: Keyed(q.key) && refund.key == q.key
  }

  lemma {:induction false} CountsKey(refunds: seq<Refund>, key: string)
    ensures WithKey(refunds, key) > 0 <==> exists refund <- refunds :: refund.key == Some(key)
  {
    if refunds != [] {
      var before, last := refunds[..|refunds| - 1], refunds[|refunds| - 1];
      CountsKey(before, key);
      assert refunds == before + [last];
    }
  }

  lemma RepeatsIff(accounts: map<string, Account>, requests: seq<Request>, q: Request)
    ensures var s := Run(Store(accounts, [], map[]), requests);
            Repeats(s.refunds, q) <==> Keyed(q.key) && q.key.value in s.byKey
  {
    KeysStaySound(accounts, requests);
    hide WithKey, Run;
    if Keyed(q.key) {
      CountsKey(Run(Store(accounts, [], map[]), requests).refunds, q.key.value);
    }
  }

  /** After every run, each answer has its one reason, which can be read off the customers as they were and
      the refunds on record; a replayed refund is on record under that very key, and a new one is the one that
      was asked for. */
  lemma AnswerHasReason(accounts: map<string, Account>, requests: seq<Request>, q: Request)
    ensures var s := Run(Store(accounts, [], map[]), requests);
            var reply, id, repeats := Create(s, q).1, q.customerId, Repeats(s.refunds, q);
            && (reply.Replayed? || reply == KeyConflict <==> repeats)
            && (reply == CustomerNotFound <==> !repeats && id !in accounts)
            && (reply == NotActive <==> !repeats && id in accounts && accounts[id].status != "active")
            && (reply == OverBalance <==>
                  !repeats && id in accounts && accounts[id].status == "active"
                  && q.cents > Left(accounts, s.refunds, id))
            && (reply.Created? <==>
                  !repeats && id in accounts && accounts[id].status == "active"
                  && q.cents <= Left(accounts, s.refunds, id))
            && (reply.Replayed? ==> reply.refund in s.refunds && reply.refund.key == q.key)
            && (reply.Created? ==> AsAsked(reply.refund, q))
  {
    hide Run, Refunded, Repeats, WithKey, Fingerprint;
    var s := Run(Store(accounts, [], map[]), requests);
    RepeatsIff(accounts, requests, q);
    KeysStaySound(accounts, requests);
    AccountsStay(Store(accounts, [], map[]), requests);
    assert (q.customerId in s.accounts <==> q.customerId in accounts) by {
      assert q.customerId in s.accounts.Keys <==> q.customerId in accounts.Keys;
    }
    if q.customerId in accounts {
      StatusStays(Store(accounts, [], map[]), requests, q.customerId);
      MoneyIsConserved(Store(accounts, [], map[]), requests, q.customerId);
      NothingRefunded(q.customerId);
    }
  }

  predicate AsAsked(refund: Refund, q: Request) {
    && refund.refundId == q.refundId && refund.customerId == q.customerId && refund.cents == q.cents
    && refund.reason == q.reason && refund.key == q.key
  }

  lemma NothingRefunded(id: string)
    ensures Refunded([], id) == 0
  {}

  /** Using a key again gives the refund back if customer, amount and reason are all the same, and a
      conflict otherwise; either way it changes nothing. Identifiers are as the schema has them. */
  lemma ReuseReplaysSameRequest(accounts: map<string, Account>, requests: seq<Request>, q: Request)
    requires (forall id | id in accounts :: ValidId(id)) && ValidId(q.customerId)
    requires Keyed(q.key) && q.key.value in Run(Store(accounts, [], map[]), requests).byKey
    ensures var s := Run(Store(accounts, [], map[]), requests);
            var refund := s.byKey[q.key.value]; var (s', reply) := Create(s, q);
            && s' == s && (reply == Replayed(refund) || reply == KeyConflict)
            && (reply == Replayed(refund) <==>
                refund.customerId == q.customerId && refund.cents == q.cents && refund.reason == q.reason)
  {
    var s := Run(Store(accounts, [], map[]), requests);
    KeysStaySound(accounts, requests);
    var refund := s.byKey[q.key.value];
    AccountsStay(Store(accounts, [], map[]), requests);
    ValidIdHasNoBar(refund.customerId);
    ValidIdHasNoBar(q.customerId);
    FingerprintInjective(refund.customerId, refund.cents, refund.reason, q.customerId, q.cents, q.reason);
  }

  lemma {:induction false} KeyStays(s: Store, later: seq<Request>, key: string)
    requires key in s.byKey
    ensures key in Run(s, later).byKey && Run(s, later).byKey[key] == s.byKey[key]
    decreases |later|
  {
    if later != [] {
      KeyStays(s, later[..|later| - 1], key);
    }
  }

  /** A refund that was granted under a key is made once: whatever was asked for in between, the same
      request gets the same refund again and changes nothing. */
  lemma RetriesChargeOnce(s: Store, q: Request, between: seq<Request>, refundId: nat)
    requires Keyed(q.key) && Create(s, q).1.Created?
    ensures var (s', reply) := Create(s, q); var now := Run(s', between);
            Create(now, q.(refundId := refundId)) == (now, Replayed(reply.refund))
  {
    KeyStays(Create(s, q).0, between, q.key.value);
  }
}
