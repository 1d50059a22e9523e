/** One gateway call: the parameter bag a caller fills in, and the commit
    step that authenticates the request and turns the gateway's reply into
    an outcome. Every operation is a pure function: a setter returns the
    transaction it leaves behind, and commit takes the HTTP exchange as an
    input. */
module Transactions {
  import opened Basics
  import opened Errors
  import opened Fields
  import opened Responses
  import Decimal
  import Utf8
  import Base64

  const ProcessTransactionUrl := "https://www.beanstream.com/scripts/process_transaction.asp"
  const RecurringBillingUrl := "https://www.beanstream.com/scripts/recurring_billing.asp"
  const PaymentProfileUrl := "https://www.beanstream.com/scripts/payment_profile.asp"
  const ReportDownloadUrl := "https://www.beanstream.com/scripts/report_download.asp"
  const ReportUrl := "https://www.beanstream.com/scripts/report.aspx"

  /** The body the gateway sends when it wanted a hash and got none. */
  const EmptyHashBody := "Empty hash value"

  /** The gateway configuration a transaction reads: `str(merchant_id)`,
      one optional passcode per endpoint family, and the CVD policy. */
  datatype Gateway = Gateway(
    merchantId: string,
    paymentPasscode: Option<string>,
    recurringBillingPasscode: Option<string>,
    paymentProfilePasscode: Option<string>,
    reportingPasscode: Option<string>,
    requireCvd: bool)

  /** What a transaction sees of a card: `card.params()` and `card.has_cvd()`. */
  datatype Card = Card(fields: map<string, string>, hasCvd: bool)

  /** What a transaction sees of an address: `address.params('ord')`. */
  datatype Address = Address(orderFields: map<string, string>)

  /** `url` is the endpoint the concrete transaction type posts to. The two
      flags stand for the attributes `has_credit_card` and
      `has_billing_address`; false means the attribute was never set. */
  datatype Transaction = Transaction(
    gateway: Gateway,
    url: string,
    orderNumber: string,
    params: map<string, string>,
    hasCreditCard: bool,
    hasBillingAddress: bool)

  /** The transaction a setter leaves behind, and whether it raised. */
  datatype SetterResult = SetterResult(after: Transaction, outcome: Outcome)

  /** `after` is `before.update(update)`: the entries of `update` win, every
      other entry of `before` stays, and no other key appears. */
  predicate UpdatedWith(after: map<string, string>, before: map<string, string>, update: map<string, string>)
  {
    && after.Keys == before.Keys + update.Keys
    && (forall k :: k in update ==> after[k] == update[k])
    && (forall k :: k in before && k !in update ==> after[k] == before[k])
  }

  /** Setters never touch the gateway, the endpoint or the order number. */
  predicate SameIdentity(a: Transaction, b: Transaction)
  {
    a.gateway == b.gateway && a.url == b.url && a.orderNumber == b.orderNumber
  }

  /** The wall-clock rendering `str(time.time())` followed by the decimal
      rendering of the random draw `randint(0, 1000)`; both are inputs. */
  function OrderNumberFor(timestamp: string, draw: nat): (s: string)
    requires draw <= 1000
    ensures StartsWith(s, timestamp)
    ensures 1 <= |s| - |timestamp| <= 4
    ensures Decimal.Canonical(s[|timestamp|..])
    ensures Decimal.Value(s[|timestamp|..]) == draw
  {
    Decimal.ValueOfFromNat(draw);
    Decimal.FromNatShort(draw);
    var s := timestamp + Decimal.FromNat(draw);
    assert s[|timestamp|..] == Decimal.FromNat(draw);
    s
  }

  /** A fresh transaction: its parameter bag holds the order number and
      nothing else. */
  function New(gateway: Gateway, url: string, timestamp: string, draw: nat): (t: Transaction)
    requires draw <= 1000
    ensures t.params.Keys == {OrderNumberKey}
    ensures t.params[OrderNumberKey] == t.orderNumber
    ensures StartsWith(t.orderNumber, timestamp)
    ensures Decimal.Canonical(t.orderNumber[|timestamp|..])
    ensures Decimal.Value(t.orderNumber[|timestamp|..]) == draw
    ensures t.gateway == gateway && t.url == url
    ensures !t.hasCreditCard && !t.hasBillingAddress
  {
    var orderNumber := OrderNumberFor(timestamp, draw);
    Transaction(gateway, url, orderNumber, map[OrderNumberKey := orderNumber], false, false)
  }

  /** Merges the card's fields, unless CVD is required and the card has
      none, in which case it raises before changing anything. */
  function SetCard(t: Transaction, card: Card): (r: SetterResult)
    ensures r.outcome.Raised? <==> t.gateway.requireCvd && !card.hasCvd
    ensures r.outcome.Raised? ==> r.outcome.kind == Validation && r.after == t
    ensures r.outcome.Returned? ==>
      && UpdatedWith(r.after.params, t.params, card.fields)
      && r.after.hasCreditCard
      && r.after.hasBillingAddress == t.hasBillingAddress
      && SameIdentity(r.after, t)
  {
    if t.gateway.requireCvd && !card.hasCvd then
      SetterResult(t, Raised(Validation))
    else
      SetterResult(t.(params := t.params + card.fields, hasCreditCard := true), Returned)
  }

  /** Merges the address's order-prefixed fields; never raises. */
  function SetBillingAddress(t: Transaction, address: Address): (u: Transaction)
    ensures UpdatedWith(u.params, t.params, address.orderFields)
    ensures u.hasBillingAddress && u.hasCreditCard == t.hasCreditCard
    ensures SameIdentity(u, t)
  {
    t.(params := t.params + address.orderFields, hasBillingAddress := true)
  }

  /** Python truthiness of a reference entry: neither `None` nor empty. */
  predicate Truthy(ref: Option<string>)
  {
    ref.Some? && ref.value != ""
  }

  /** The entries `set_refs` writes: each truthy `refs[i]` under the field
      `ref<i+1>`. */
  function RefUpdates(refs: seq<Option<string>>): (m: map<string, string>)
    requires |refs| <= MaxRefs
    ensures forall i :: 0 <= i < |refs| && Truthy(refs[i]) ==> RefFields[i] in m && m[RefFields[i]] == refs[i].value
    ensures forall i :: 0 <= i < |refs| && !Truthy(refs[i]) ==> RefFields[i] !in m
    ensures forall k :: k in m ==> exists i :: 0 <= i < |refs| && k == RefFields[i]
  {
    RefFieldsDistinct();
    map i | 0 <= i < |refs| && Truthy(refs[i]) :: RefFields[i] := refs[i].value
  }

  /** The `for ref_idx, ref in enumerate(refs, start=1)` loop, as the state
      after each prefix of `refs`: it updates `params` with exactly the
      entries of `RefUpdates`. */
  function WriteRefs(params: map<string, string>, refs: seq<Option<string>>): (after: map<string, string>)
    requires |refs| <= MaxRefs
    ensures after == params + RefUpdates(refs)
    decreases |refs|
  {
    if |refs| == 0 then params
    else
      var last := |refs| - 1;
      var before := WriteRefs(params, refs[..last]);
      RefUpdatesExtend(refs);
      if Truthy(refs[last]) then
        UpdateAfterUnion(params, RefUpdates(refs[..last]), RefFields[last], refs[last].value);
        before[RefFields[last] := refs[last].value]
      else before
  }

  /** Writing one entry after an update is the same as updating with the
      written entry included. */
  lemma UpdateAfterUnion(params: map<string, string>, updates: map<string, string>, key: string, value: string)
    ensures (params + updates)[key := value] == params + updates[key := value]
  {
    var lhs := (params + updates)[key := value];
    var rhs := params + updates[key := value];
    assert lhs.Keys == rhs.Keys;
    forall k | k in lhs
      ensures lhs[k] == rhs[k]
    {
    }
  }

  /** The updates of a list are those of all but its last entry, plus the
      last entry's own when it is truthy: the earlier entries use other
      fields, so the last write overwrites none of them. */
  lemma RefUpdatesExtend(refs: seq<Option<string>>)
    requires 0 < |refs| <= MaxRefs
    ensures var last := |refs| - 1;
            RefUpdates(refs) == if Truthy(refs[last]) then RefUpdates(refs[..last])[RefFields[last] := refs[last].value]
                                else RefUpdates(refs[..last])
  {
    var last := |refs| - 1;
    var earlier := RefUpdates(refs[..last]);
    var all := RefUpdates(refs);
    var expected := if Truthy(refs[last]) then earlier[RefFields[last] := refs[last].value] else earlier;
    SameKeysExtend(refs);
    SameValuesExtend(refs);
    assert all.Keys == expected.Keys;
    assert forall k :: k in all ==> all[k] == expected[k];
  }

  lemma SameKeysExtend(refs: seq<Option<string>>)
    requires 0 < |refs| <= MaxRefs
    ensures var last := |refs| - 1;
            RefUpdates(refs).Keys == RefUpdates(refs[..last]).Keys + (if Truthy(refs[last]) then {RefFields[last]} else {})
  {
    var last := |refs| - 1;
    var earlier := RefUpdates(refs[..last]);
    var all := RefUpdates(refs);
    EarlierUpdatesKept(refs);
    forall k | k in all
      ensures k in earlier || (Truthy(refs[last]) && k == RefFields[last])
    {
      var i :| 0 <= i < |refs| && k == RefFields[i];
      if i < last {
        assert refs[..last][i] == refs[i];
      }
    }
  }

  lemma SameValuesExtend(refs: seq<Option<string>>)
    requires 0 < |refs| <= MaxRefs
    ensures var last := |refs| - 1;
            forall k :: k in RefUpdates(refs[..last]) ==> k in RefUpdates(refs) && RefUpdates(refs)[k] == RefUpdates(refs[..last])[k]
  {
    var last := |refs| - 1;
    var earlier := RefUpdates(refs[..last]);
    var all := RefUpdates(refs);
    EarlierUpdatesKept(refs);
    forall k | k in earlier
      ensures all[k] == earlier[k]
    {
      var i :| 0 <= i < last && k == RefFields[i];
      assert refs[..last][i] == refs[i];
    }
  }

  /** Every field the earlier entries write, the whole list writes too. */
  lemma EarlierUpdatesKept(refs: seq<Option<string>>)
    requires 0 < |refs| <= MaxRefs
    ensures forall k :: k in RefUpdates(refs[..|refs| - 1]) ==> k in RefUpdates(refs)
  {
    var prefix := refs[..|refs| - 1];
    forall k | k in RefUpdates(prefix)
      ensures k in RefUpdates(refs)
    {
      var i :| 0 <= i < |prefix| && k == RefFields[i];
      assert prefix[i] == refs[i];
    }
  }

  /** Raises when more than five entries are given, before any write;
      otherwise writes each truthy entry under its 1-based `ref` field. */
  function SetRefs(t: Transaction, refs: seq<Option<string>>): (r: SetterResult)
    ensures r.outcome.Raised? <==> |refs| > MaxRefs
    ensures |refs| > MaxRefs ==> r == SetterResult(t, Raised(Validation))
    ensures |refs| <= MaxRefs ==>
      && r.after.params == t.params + RefUpdates(refs)
      && r.after.hasCreditCard == t.hasCreditCard
      && r.after.hasBillingAddress == t.hasBillingAddress
      && SameIdentity(r.after, t)
  {
    if |refs| > MaxRefs then SetterResult(t, Raised(Validation))
    else SetterResult(t.(params := WriteRefs(t.params, refs)), Returned)
  }

  /** The passcode slot for an endpoint: the three dedicated endpoints have
      their own, and every other URL uses the reporting passcode. */
  function SelectPasscode(gateway: Gateway, url: string): (p: Option<string>)
    ensures url == ProcessTransactionUrl ==> p == gateway.paymentPasscode
    ensures url == RecurringBillingUrl ==> p == gateway.recurringBillingPasscode
    ensures url == PaymentProfileUrl ==> p == gateway.paymentProfilePasscode
    ensures url !in {ProcessTransactionUrl, RecurringBillingUrl, PaymentProfileUrl} ==> p == gateway.reportingPasscode
  {
    if url == ProcessTransactionUrl then gateway.paymentPasscode
    else if url == RecurringBillingUrl then gateway.recurringBillingPasscode
    else if url == PaymentProfileUrl then gateway.paymentProfilePasscode
    else gateway.reportingPasscode
  }

  const Scheme := "Passcode "

  /** The `Authorization` header value: the scheme token, then the base64
      of the UTF-8 bytes of `merchant_id:passcode`. The gateway can decode
      it back to exactly those credentials. */
  function Authorization(merchantId: string, passcode: string): (h: string)
    ensures StartsWith(h, Scheme)
    ensures Base64.Decode(h[|Scheme|..]).Some?
    ensures Utf8.Decode(Base64.Decode(h[|Scheme|..]).value) == Some(merchantId + ":" + passcode)
  {
    var bytes := Utf8.Encode(merchantId + ":" + passcode);
    Utf8.DecodeEncode(merchantId + ":" + passcode);
    Base64.DecodeEncode(bytes);
    var h := Scheme + Base64.Encode(bytes);
    assert h[|Scheme|..] == Base64.Encode(bytes);
    h
  }

  /** The exchange with the gateway: the status and the decoded body text. */
  datatype HttpReply = HttpReply(status: int, body: string)

  /** The request commit posts: endpoint, header, and the form fields. */
  datatype Request = Request(url: string, authorization: string, fields: map<string, string>)

  /** What commit hands back. `HookRaised` is the exception `validate()`
      raised; `ReturnedFalse` is the value `False`; `ReturnedErrorKind` is
      the exception class returned (not raised) for a non-200 status. */
  datatype CommitResult =
    | HookRaised(kind: ErrorKind)
    | ReturnedFalse
    | ReturnedErrorKind(kind: ErrorKind)
    | ReturnedResponse(response: Response)

  /** The request sent, if any, and the result. */
  datatype CommitRun = CommitRun(request: Option<Request>, result: CommitResult)

  /** The commit decision. `hook` is how the transaction type's `validate()`
      ended, `reply` the HTTP exchange, `parse` the form decoder and
      `classify` the status-to-exception mapping. */
  function Commit(t: Transaction, hook: Outcome, reply: HttpReply,
                  parse: string -> map<string, seq<string>>, classify: int -> ErrorKind): (run: CommitRun)
    ensures hook.Raised? ==> run == CommitRun(None, HookRaised(hook.kind))
    ensures run.request.Some? <==> hook.Returned? && SelectPasscode(t.gateway, t.url).Some?
    ensures run.request.Some? ==>
      var passcode := SelectPasscode(t.gateway, t.url).value;
      && run.request.value.url == t.url
      && run.request.value.fields == t.params
      && StartsWith(run.request.value.authorization, Scheme)
      && Base64.Decode(run.request.value.authorization[|Scheme|..]).Some?
      && Utf8.Decode(Base64.Decode(run.request.value.authorization[|Scheme|..]).value)
           == Some(t.gateway.merchantId + ":" + passcode)
    ensures run.result == ReturnedFalse <==>
      hook.Returned? && (SelectPasscode(t.gateway, t.url).None? || (reply.status == 200 && reply.body == EmptyHashBody))
    ensures run.result.ReturnedErrorKind? <==> run.request.Some? && reply.status != 200
    ensures run.result.ReturnedErrorKind? ==> run.result.kind == classify(reply.status)
    ensures run.result.ReturnedResponse? <==> run.request.Some? && reply.status == 200 && reply.body != EmptyHashBody
    ensures run.result.ReturnedResponse? ==> run.result.response.fields == parse(reply.body)
  {
    if hook.Raised? then CommitRun(None, HookRaised(hook.kind))
    else match SelectPasscode(t.gateway, t.url)
      case None => CommitRun(None, ReturnedFalse)
      case Some(passcode) =>
        var request := Request(t.url, Authorization(t.gateway.merchantId, passcode), t.params);
        if reply.status != 200 then CommitRun(Some(request), ReturnedErrorKind(classify(reply.status)))
        else if reply.body == EmptyHashBody then CommitRun(Some(request), ReturnedFalse)
        else CommitRun(Some(request), ReturnedResponse(Response(parse(reply.body))))
  }
}
