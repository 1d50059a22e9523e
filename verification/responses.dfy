/** The gateway's decoded reply: a read-only view over the field map that
    form decoding produced, in which every field name carries the list of
    values sent under it. */
module Responses {
  import opened Basics
  import opened Fields

  datatype Response = Response(fields: map<string, seq<string>>)

  /** Looking `key` up does not index an empty list. Form decoding never
      produces an empty list, and the accessors' `[0]` would fail on one. */
  predicate Indexable(r: Response, key: string)
  {
    key in r.fields ==> |r.fields[key]| > 0
  }

  /** `resp.get(key, [None])[0]`: the first value sent under `key`, or
      `None` when the field is absent. */
  function First(r: Response, key: string): (v: Option<string>)
    requires Indexable(r, key)
    ensures v.Some? <==> key in r.fields
    ensures v.Some? ==> v.value == r.fields[key][0]
  {
    if key in r.fields then Some(r.fields[key][0]) else None
  }

  /** The order number the transaction request carried. */
  function OrderNumber(r: Response): (v: Option<string>)
    requires Indexable(r, OrderNumberKey)
    ensures v.Some? <==> "trnOrderNumber" in r.fields
    ensures v.Some? ==> v.value == r.fields["trnOrderNumber"][0]
  {
    First(r, OrderNumberKey)
  }

  /** The gateway's transaction identifier. */
  function TransactionId(r: Response): (v: Option<string>)
    requires Indexable(r, TransactionIdKey)
    ensures v.Some? <==> "trnId" in r.fields
    ensures v.Some? ==> v.value == r.fields["trnId"][0]
  {
    First(r, TransactionIdKey)
  }

  /** All five reference fields are indexable. */
  predicate RefsIndexable(r: Response)
  {
    forall i :: 0 <= i < |RefFields| ==> Indexable(r, RefFields[i])
  }

  /** Always five slots; slot `i` holds the first value of `ref<i+1>`, or
      `None` when that field is absent. */
  function Refs(r: Response): (v: seq<Option<string>>)
    requires RefsIndexable(r)
    ensures |v| == MaxRefs
    ensures forall i :: 0 <= i < MaxRefs ==> (v[i].Some? <==> RefFields[i] in r.fields)
    ensures forall i :: 0 <= i < MaxRefs && v[i].Some? ==> v[i].value == r.fields[RefFields[i]][0]
  {
    assert Indexable(r, RefFields[0]) && Indexable(r, RefFields[1]) && Indexable(r, RefFields[2]);
    assert Indexable(r, RefFields[3]) && Indexable(r, RefFields[4]);
    [First(r, "ref1"), First(r, "ref2"), First(r, "ref3"), First(r, "ref4"), First(r, "ref5")]
  }
}
