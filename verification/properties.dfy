/** Properties that relate several operations of the transaction pipeline:
    the order-number invariant across setters and commit, the reference
    fields from request to response, the commit outcomes the library's
    tests pin down, and what the order number does and does not
    guarantee. */
module Properties {
  import opened Basics
  import opened Errors
  import opened Fields
  import opened Responses
  import opened Transactions
  import Decimal

  /** The parameter bag carries the transaction's own order number. */
  predicate CarriesOrderNumber(t: Transaction)
  {
    OrderNumberKey in t.params && t.params[OrderNumberKey] == t.orderNumber
  }

  /** A fresh transaction carries its order number, and every setter keeps
      it, unless a card or address brings a field of the same name. */
  lemma SettersKeepOrderNumber(t: Transaction, card: Card, address: Address, refs: seq<Option<string>>)
    requires CarriesOrderNumber(t)
    ensures CarriesOrderNumber(SetRefs(t, refs).after)
    ensures OrderNumberKey !in card.fields ==> CarriesOrderNumber(SetCard(t, card).after)
    ensures OrderNumberKey !in address.orderFields ==> CarriesOrderNumber(SetBillingAddress(t, address))
  {
    if |refs| <= MaxRefs {
      RefFieldsDistinct();
    }
  }

  /** Whenever commit gets as far as sending (the hook returned and the
      endpoint has a passcode), the request carries the transaction's order
      number, as long as no card or address brought a field named like it. */
  lemma CommitSendsOrderNumber(t: Transaction, hook: Outcome, reply: HttpReply,
                               parse: string -> map<string, seq<string>>, classify: int -> ErrorKind)
    requires CarriesOrderNumber(t)
    requires hook == Returned && SelectPasscode(t.gateway, t.url).Some?
    ensures Commit(t, hook, reply, parse, classify).request.Some?
    ensures OrderNumberKey in Commit(t, hook, reply, parse, classify).request.value.fields
    ensures Commit(t, hook, reply, parse, classify).request.value.fields[OrderNumberKey] == t.orderNumber
  {
  }

  /** `a` and `b` agree at `k`: both lack it, or both map it to the same value. */
  predicate Unchanged(a: map<string, string>, b: map<string, string>, k: string)
  {
    (k in a <==> k in b) && (k in a ==> a[k] == b[k])
  }

  /** `set_refs` with at most five entries, field by field: the truthy
      entry at position i is written under `ref<i+1>`, a falsy one neither
      writes nor clears that field, and every field that is not one of the
      first `|refs|` reference fields is untouched. */
  lemma SetRefsByField(t: Transaction, refs: seq<Option<string>>)
    requires |refs| <= MaxRefs
    ensures var p := SetRefs(t, refs).after.params;
      && (forall i :: 0 <= i < |refs| && Truthy(refs[i]) ==> RefFields[i] in p && p[RefFields[i]] == refs[i].value)
      && (forall i :: 0 <= i < |refs| && !Truthy(refs[i]) ==> Unchanged(p, t.params, RefFields[i]))
      && (forall k :: k !in RefFields[..|refs|] ==> Unchanged(p, t.params, k))
  {
    assert SetRefs(t, refs).after.params == t.params + RefUpdates(refs);
  }

  /** Calling `set_refs` again with the same list changes nothing more. */
  lemma SetRefsIdempotent(t: Transaction, refs: seq<Option<string>>)
    requires |refs| <= MaxRefs
    ensures SetRefs(SetRefs(t, refs).after, refs) == SetRefs(t, refs)
  {
    var once := SetRefs(t, refs).after;
    var updates := RefUpdates(refs);
    assert once.params + updates == once.params;
  }

  /** Calling `set_card` again with the same card changes nothing more. */
  lemma SetCardIdempotent(t: Transaction, card: Card)
    ensures SetCard(SetCard(t, card).after, card) == SetCard(t, card)
  {
    var once := SetCard(t, card).after;
    if SetCard(t, card).outcome.Returned? {
      assert once.params + card.fields == once.params;
    }
  }

  /** A gateway that sends every request field back once. */
  function Echo(params: map<string, string>): (fields: map<string, seq<string>>)
    ensures fields.Keys == params.Keys
    ensures forall k :: k in params ==> fields[k] == [params[k]]
  {
    map k | k in params :: [params[k]]
  }

  /** Reference fields survive a round trip through a gateway that echoes
      them: on a fresh transaction, `refs()` of the echoed response holds
      each truthy entry in its slot and `None` everywhere else. */
  lemma RefsRoundTrip(gateway: Gateway, url: string, timestamp: string, draw: nat, refs: seq<Option<string>>)
    requires draw <= 1000 && |refs| <= MaxRefs
    ensures var t := SetRefs(New(gateway, url, timestamp, draw), refs).after;
            var r := Response(Echo(t.params));
            RefsIndexable(r) &&
            Refs(r) == seq(MaxRefs, i requires 0 <= i < MaxRefs =>
                             if i < |refs| && Truthy(refs[i]) then refs[i] else None)
  {
    var initial := New(gateway, url, timestamp, draw);
    var t := SetRefs(initial, refs).after;
    var updates := RefUpdates(refs);
    var r := Response(Echo(t.params));
    RefFieldsDistinct();
    assert t.params == initial.params + updates;
    var v := Refs(r);
    var expected := seq(MaxRefs, i requires 0 <= i < MaxRefs =>
                          if i < |refs| && Truthy(refs[i]) then refs[i] else None);
    forall i | 0 <= i < MaxRefs
      ensures v[i] == expected[i]
    {
      assert RefFields[i] != OrderNumberKey;
      if i < |refs| && Truthy(refs[i]) {
        assert RefFields[i] in updates;
      } else {
        assert RefFields[i] !in updates;
      }
    }
  }

  /** At every status the library's test pins down, commit returns (does
      not raise) that exception class and builds no response. */
  lemma CommitReturnsTestedErrorKind(t: Transaction, reply: HttpReply,
                                     parse: string -> map<string, seq<string>>, classify: int -> ErrorKind)
    requires AgreesWithTests(classify)
    requires SelectPasscode(t.gateway, t.url).Some?
    requires reply.status in TestedStatusKinds
    ensures Commit(t, Returned, reply, parse, classify).result == ReturnedErrorKind(TestedStatusKinds[reply.status])
  {
    assert reply.status != 200;
  }

  /** A 403 from the gateway yields the Forbidden class and no response. */
  lemma CommitForbidden(t: Transaction, body: string,
                        parse: string -> map<string, seq<string>>, classify: int -> ErrorKind)
    requires AgreesWithTests(classify)
    requires SelectPasscode(t.gateway, t.url).Some?
    ensures Commit(t, Returned, HttpReply(403, body), parse, classify).result == ReturnedErrorKind(Forbidden)
  {
    CommitReturnsTestedErrorKind(t, HttpReply(403, body), parse, classify);
  }

  /** A 200 whose body is the hash sentinel yields `False`: neither a
      response nor an exception class. */
  lemma CommitEmptyHash(t: Transaction, parse: string -> map<string, seq<string>>, classify: int -> ErrorKind)
    requires SelectPasscode(t.gateway, t.url).Some?
    ensures var run := Commit(t, Returned, HttpReply(200, EmptyHashBody), parse, classify);
            run.request.Some? && run.result == ReturnedFalse
  {
  }

  /** A purchase answered with `trnId=999&trnOrderNumber=abc123&ref1=X`
      reads back as transaction 999, order abc123 and refs `X` then four
      `None`. */
  lemma CommitPurchaseReply(t: Transaction, parse: string -> map<string, seq<string>>, classify: int -> ErrorKind)
    requires t.url == ProcessTransactionUrl && t.gateway.paymentPasscode.Some?
    requires parse("trnId=999&trnOrderNumber=abc123&ref1=X")
             == map["trnId" := ["999"], "trnOrderNumber" := ["abc123"], "ref1" := ["X"]]
    ensures var run := Commit(t, Returned, HttpReply(200, "trnId=999&trnOrderNumber=abc123&ref1=X"), parse, classify);
      && run.result.ReturnedResponse?
      && RefsIndexable(run.result.response)
      && Indexable(run.result.response, TransactionIdKey)
      && Indexable(run.result.response, OrderNumberKey)
      && TransactionId(run.result.response) == Some("999")
      && OrderNumber(run.result.response) == Some("abc123")
      && Refs(run.result.response) == [Some("X"), None, None, None, None]
  {
    var body := "trnId=999&trnOrderNumber=abc123&ref1=X";
    assert body != EmptyHashBody;
    var r := Commit(t, Returned, HttpReply(200, body), parse, classify).result.response;
    RefFieldsDistinct();
    assert RefFields[0] == "ref1";
    assert forall i :: 1 <= i < MaxRefs ==> RefFields[i] !in r.fields;
  }

  /** Requests to the two report endpoints, and to any URL the library does
      not list, authenticate with the reporting passcode. */
  lemma ReportingPasscodeServesReports(gateway: Gateway, url: string)
    requires url !in {ProcessTransactionUrl, RecurringBillingUrl, PaymentProfileUrl}
    ensures SelectPasscode(gateway, url) == gateway.reportingPasscode
    ensures SelectPasscode(gateway, ReportUrl) == gateway.reportingPasscode
    ensures SelectPasscode(gateway, ReportDownloadUrl) == gateway.reportingPasscode
  {
  }

  /** Different passcodes give different headers for the same merchant. */
  lemma AuthorizationDistinguishesPasscodes(merchantId: string, p: string, q: string)
    requires Authorization(merchantId, p) == Authorization(merchantId, q)
    ensures p == q
  {
    var prefix := merchantId + ":";
    assert prefix + p == prefix + q;
    assert (prefix + p)[|prefix|..] == p;
    assert (prefix + q)[|prefix|..] == q;
  }

  /** Two transactions created at the same instant get the same order
      number only if they drew the same random number. */
  lemma OrderNumberSameInstant(timestamp: string, a: nat, b: nat)
    requires a <= 1000 && b <= 1000
    requires OrderNumberFor(timestamp, a) == OrderNumberFor(timestamp, b)
    ensures a == b
  {
  }

  /** Across instants the order number is not unique: the timestamp and
      the draw are concatenated without a separator, so `1.12` with 345 and
      `1.123` with 45 both give `1.12345`. */
  lemma OrderNumberCollides()
    ensures OrderNumberFor("1.12", 345) == OrderNumberFor("1.123", 45)
  {
    assert Decimal.FromNat(3) == "3" && Decimal.FromNat(4) == "4";
    assert Decimal.FromNat(34) == "34";
    assert Decimal.FromNat(345) == "345";
    assert Decimal.FromNat(45) == "45";
  }
}
