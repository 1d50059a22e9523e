# Beanstream transaction pipeline, modelled in Dafny

This project models the request-building and commit-decision core of the
Beanstream legacy-API Python client (`beanstream/transaction.py`). It covers:

- the parameter bag a `Transaction` accumulates;
- the order number it is seeded with;
- the setters `set_card`, `set_billing_address` and `set_refs`;
- the decision procedure of `commit`, from the validation hook to the outcome;
- the read-only `Response` accessors.

The model is functional. A `Transaction` is an immutable value. The setters
that can raise (`set_card`, `set_refs`) return the transaction they leave
behind together with an `Outcome`: `Returned`, or `Raised(kind)` when the
source raises. `set_billing_address` cannot raise, so its model returns
only the transaction. `Commit` is a pure
function. Its inputs are the transaction, how the `validate()` hook ended,
the HTTP exchange `(status, body)`, the form decoder and the
status-to-exception classifier. It returns the request it would send, if
any, and the result.

Modules, leaves first:

- `Basics` (basics.dfy): `Option`, `byte`, `StartsWith`.
- `Decimal` (decimal.dfy): `str(n)` for naturals, with the parser that inverts it.
- `Utf8` (utf8.dfy): `str.encode('utf-8')`, with a strict decoder.
- `Base64` (base64.dfy): `base64.b64encode`, as defined in section 4 of RFC 4648, with a strict decoder.
- `Errors` (errors.dfy): the exception classes of `beanstream/errors.py` as a plain enumeration. Also the status codes the library's test pins down.
- `Fields` (fields.dfy): the wire names `trnOrderNumber`, `trnId` and `ref1`..`ref5`.
- `Responses` (responses.dfy): `Response` and its accessors.
- `Transactions` (transaction.dfy): `Transaction`, the setters, passcode selection, the `Authorization` header and `Commit`.
- `Properties` (properties.dfy): lemmas that relate several operations.

Behaviour of the code worth noting:

- A missing passcode makes `commit` return `False` (transaction.py:98-100). Nothing raises `ConfigurationException` there.
- The `Empty hash value` body also yields `False`. It is the same value as for a missing passcode, not a distinct failure kind.
- The status classifier `getMappedException` is not part of this model (it is not defined in `beanstream/errors.py`). `Commit` takes the classifier as a parameter. `Errors.AgreesWithTests` pins it only at the seven codes that `tests/simple_t.py` asserts. Nothing is assumed about any other code.
- The order number is not unique. Timestamp and draw are concatenated without a separator, so two different instants can give the same string (`Properties.OrderNumberCollides`).
- The docstring of `_generate_order_number` promises "a random 10-digit alphanumeric string". The code produces the timestamp followed by one to four decimal digits.

## Model

| member | source | states |
|---|---|---|
| Decimal.FromNat | beanstream/transaction.py:137 | `str(n)` of a non-negative int is a non-empty digit string with no leading zero, a single digit exactly when n < 10 |
| Decimal.ValueOfFromNat | beanstream/transaction.py:137 | reading the digits of `str(n)` back gives n |
| Decimal.FromNatOfValue | beanstream/transaction.py:137 | every canonical digit string is `str` of its value (the other direction of the round trip) |
| Decimal.FromNatInjective | beanstream/transaction.py:137 | different draws render differently |
| Utf8.EncodeChar | beanstream/transaction.py:102 | a character encodes to 1-4 bytes, the length fixed by its code-point range; ASCII to itself, the rest to a lead byte in the range that announces the length followed by continuation bytes; the strict decoder reads exactly that character back from those bytes |
| Utf8.Encode | beanstream/transaction.py:102 | `.encode('utf-8')` of a string takes between one and four bytes per character |
| Utf8.DecodeEncode | beanstream/transaction.py:102 | the UTF-8 bytes of the credential string decode back to that string |
| Utf8.EncodeInjective | beanstream/transaction.py:102 | different strings have different UTF-8 encodings |
| Base64.Encode | beanstream/transaction.py:102 | `base64.b64encode` output is a whole number of four-character groups, empty exactly when the input is empty; its content is pinned by the decoder round trips below |
| Base64.DecodeEncode | beanstream/transaction.py:102 | decoding `b64encode(bytes)` gives the bytes back |
| Base64.EncodeDecode | beanstream/transaction.py:102 | the strict decoder accepts exactly canonical encodings: whatever it accepts re-encodes to the same text |
| Base64.EncodedLength | beanstream/transaction.py:102 | n bytes encode to 4·⌈n/3⌉ characters |
| Base64.EncodeInjective | beanstream/transaction.py:102 | different byte strings have different encodings |
| Errors.AgreesWithTests | tests/simple_t.py:284-295 | holds exactly when the classifier maps 302 to Redirection, 400, 405 and 415 to InvalidRequest, 401 to UnAuthorized, 402 to BusinessRule and 403 to Forbidden; every other code is left free |
| Fields.RefFieldsSpelling | beanstream/transaction.py:160-162 | the names `'ref%s' % n` for n = 1..5 are exactly `ref1`..`ref5`, the names `refs()` reads |
| Fields.RefFieldsDistinct | beanstream/transaction.py:184-191 | the five reference fields are pairwise distinct and differ from `trnOrderNumber` and `trnId` |
| Responses.First | beanstream/transaction.py:178 | `resp.get(key, [None])[0]`: the first value under the key when present, `None` exactly when absent |
| Responses.OrderNumber | beanstream/transaction.py:176-178 | the first value under `trnOrderNumber`, `None` exactly when the field is absent |
| Responses.TransactionId | beanstream/transaction.py:180-182 | the first value under `trnId`, `None` exactly when the field is absent |
| Responses.Refs | beanstream/transaction.py:184-191 | always five slots; slot i is `Some` exactly when `ref<i+1>` is present, and then holds its first value |
| Transactions.OrderNumberFor | beanstream/transaction.py:133-138 | the order number is the timestamp followed by 1-4 canonical digits whose value is the draw 0..1000 |
| Transactions.New | beanstream/transaction.py:55-63 | a new transaction's parameters are exactly `{trnOrderNumber: order_number}`, no card or address is flagged, and the order number has the timestamp-then-draw shape |
| Transactions.SetCard | beanstream/transaction.py:144-150 | raises Validation exactly when CVD is required and the card has none, and then nothing changes; otherwise the parameters become `params.update(card.params())` and the card flag is set |
| Transactions.SetBillingAddress | beanstream/transaction.py:152-154 | never raises; the parameters become `params.update(address.params('ord'))` and the address flag is set; nothing else changes |
| Transactions.Truthy | beanstream/transaction.py:161 | the test `if ref:` on an entry: true exactly for a present, non-empty string; `None` and `''` are skipped |
| Transactions.RefUpdates | beanstream/transaction.py:160-162 | the entries `set_refs` writes: each truthy entry at position i under `ref<i+1>`, nothing for falsy entries, and no other field |
| Transactions.WriteRefs | beanstream/transaction.py:160-162 | the enumerate loop, entry by entry, ends in `params` updated with exactly `RefUpdates(refs)` (a later write never clobbers an earlier field) |
| Transactions.SetRefs | beanstream/transaction.py:156-162 | raises Validation exactly when more than five entries are given, and then nothing changes; otherwise the parameters become `params.update(RefUpdates(refs))` |
| Transactions.SelectPasscode | beanstream/transaction.py:88-96 | process_transaction selects the payment passcode, recurring_billing the recurring-billing one, payment_profile the profile one, and every other URL the reporting one |
| Transactions.Authorization | beanstream/transaction.py:102-103 | the header is `Passcode ` followed by base64 text that decodes, through UTF-8, back to exactly `merchant_id:passcode` |
| Transactions.Commit | beanstream/transaction.py:68-128 | a raising hook stops everything; a request is built exactly when the hook passes and the endpoint's passcode exists, and then it carries the URL, the parameters and a header that decodes to the credentials; the result is `False` exactly for a missing passcode or a 200 with the hash sentinel, the classifier's kind exactly for a sent request with a non-200 status, and a response over the decoded body otherwise |
| Properties.SettersKeepOrderNumber | beanstream/transaction.py:62 | `trnOrderNumber = order_number` survives `set_refs` always, and `set_card`/`set_billing_address` unless the card or address brings that field |
| Properties.CommitSendsOrderNumber | beanstream/transaction.py:73 | for a transaction whose parameters still carry its order number: once the hook returns and the endpoint has a passcode, commit sends a request, and that request carries the transaction's own order number |
| Properties.SetRefsByField | beanstream/transaction.py:156-162 | with at most five entries: truthy entry i is written to `ref<i+1>`, a falsy one neither writes nor clears it, every other field is untouched |
| Properties.SetRefsIdempotent | beanstream/transaction.py:156-162 | calling `set_refs` twice with the same list is the same as calling it once |
| Properties.SetCardIdempotent | beanstream/transaction.py:144-150 | calling `set_card` twice with the same card is the same as calling it once |
| Properties.RefsRoundTrip | beanstream/transaction.py:184-191 | on a fresh transaction, if the gateway echoes the request fields, `refs()` returns each truthy entry in its slot and `None` elsewhere |
| Properties.CommitReturnsTestedErrorKind | tests/simple_t.py:284-295 | at 302, 400, 405, 415, 401, 402 and 403, commit returns the tested exception class and builds no response |
| Properties.CommitForbidden | beanstream/transaction.py:112-114 | a 403 yields the Forbidden class, not a response |
| Properties.CommitEmptyHash | beanstream/transaction.py:120-122 | a 200 with body `Empty hash value` sends the request but yields `False` |
| Properties.CommitPurchaseReply | beanstream/transaction.py:124-128 | the reply `trnId=999&trnOrderNumber=abc123&ref1=X` reads back as id 999, order abc123 and refs `[X, None, None, None, None]` |
| Properties.ReportingPasscodeServesReports | beanstream/transaction.py:95-96 | both report endpoints, and any unlisted URL, use the reporting passcode |
| Properties.AuthorizationDistinguishesPasscodes | beanstream/transaction.py:102-103 | for one merchant, different passcodes give different headers |
| Properties.OrderNumberSameInstant | beanstream/transaction.py:133-138 | at a fixed timestamp, equal order numbers imply equal draws |
| Properties.OrderNumberCollides | beanstream/transaction.py:133-138 | across timestamps the order number is not unique: `1.12` with 345 and `1.123` with 45 both give `1.12345` |

## Left out

- Network I/O is replaced by the `HttpReply(status, body)` input: `urllib.request.Request`, `urlopen`, `res.read()` and `body.decode('utf-8')`. The transport behaviour of urllib's default opener is outside this model, and it matters. That opener raises `HTTPError` for every 4xx and 5xx status, and it follows a 301, 302 or 303 reply to a POST as a GET. So in the code as written, none of the seven tested codes ever reaches the `res.code != 200` test at transaction.py:112; only a non-200 2xx reply does. The model feeds every status straight to that test, which is what the code's branch is written for.
- The `print` and `log` calls are not modelled. They have no effect on the outcome.
- `urlencode(self.params)` is not modelled. The request carries the parameter map itself. Form encoding is a library call.
- `parse_qs` (`parse_raw_response`) is the `parse` parameter of `Commit`. It is a library decoder.
- `getMappedException` is the `classify` parameter of `Commit`. Its definition is not part of this model, and only the tested codes constrain it.
- `_process_amount` is not modelled. It builds a `Decimal` from caller floats and quantizes it with the context's rounding mode, which is floating-point behaviour.
- The commented-out hash-validation block is not modelled. It is dead code.
- Order-number uniqueness is not modelled, because it depends on the wall clock and on randomness. `str(time.time())` is an input string and the draw `randint(0, 1000)` is an input number; only their shape is modelled.
- `beanstream/errors.py` declares classes only. Its names give `Errors.ErrorKind`. There is no subtype relation, because the HTTP-status classes do not derive from `BeanstreamApiException`.
- `beanstream/location_codes.py` is not modelled. It is static lookup data.
- The subclass-specific `url`, `validate()`, `response_class` and `response_params` are not part of this model. `url` is a field. The hook's result is the `hook` input. The response is the base `Response` over the decoded map.
- `TRN_TYPES`, `Response.__repr__` and `Response.__str__` are not modelled. They play no part in the decision logic.
- The card and address classes are not part of this model. Their contributions appear only as views: `card.params()`, `card.has_cvd()` and `address.params('ord')`.
- `merchant_id` is modelled as its `str()` rendering.
- `has_credit_card` and `has_billing_address` are attributes that do not exist until a setter sets them. In the model they are booleans that start false.
- Responses.First: a field that is present with an empty value list would make the source raise `IndexError`. `parse_qs` never produces such a list. The accessors require that the field they read is not empty-listed, instead of modelling that raise. The same holds for Responses.OrderNumber, Responses.TransactionId and Responses.Refs.
- Transactions.RefUpdates: it requires at most five entries. That is the only way the loop is reached after the length guard, and the same holds for Transactions.WriteRefs.
