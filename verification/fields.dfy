/** Names of the form fields the request and the response share. */
module Fields {
  import Decimal

  const OrderNumberKey := "trnOrderNumber"
  const TransactionIdKey := "trnId"

  /** At most this many reference fields exist. */
  const MaxRefs := 5

  /** `'ref%s' % index`: the name of the index-th reference field. */
  function RefKey(index: nat): string
  {
    "ref" + Decimal.FromNat(index)
  }

  /** The reference fields by 0-based position; `RefFields[i]` is the field
      `enumerate(refs, start=1)` numbers `i + 1`. */
  const RefFields: seq<string> := ["ref1", "ref2", "ref3", "ref4", "ref5"]

  /** The table spells exactly the names `'ref%s' % n` builds for n = 1..5. */
  lemma RefFieldsSpelling()
    ensures |RefFields| == MaxRefs
    ensures forall i :: 0 <= i < MaxRefs ==> RefFields[i] == RefKey(i + 1)
  {
    assert RefKey(1) == "ref1" && RefKey(2) == "ref2" && RefKey(3) == "ref3";
    assert RefKey(4) == "ref4" && RefKey(5) == "ref5";
  }

  /** Different positions name different fields, and none of them is the
      order number or the transaction id. */
  lemma RefFieldsDistinct()
    ensures forall i, j :: 0 <= i < |RefFields| && 0 <= j < |RefFields| && RefFields[i] == RefFields[j] ==> i == j
    ensures forall i :: 0 <= i < |RefFields| ==> RefFields[i] != OrderNumberKey && RefFields[i] != TransactionIdKey
  {
  }
}
