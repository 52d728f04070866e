/** The helpers of lib/utils.js: the request-URL rule of `getData`, the
    normaliser `createStoresArray`, the one-sided differ
    `diffStoreIdsAndFields`, and the reconcilers `createStores` and
    `compareFields`. */
module Utils {
  import opened Seqs

  /** One element of a source's `data` array: its `id`, its `type`, and the
      key names of its `attributes` in `Object.keys` order. */
  datatype RawEntry = RawEntry(id: string, kind: string, attributeKeys: seq<string>)

  /** `{ id, fields }`: a store and the key names of its attributes. */
  datatype StoreSummary = StoreSummary(id: string, fields: seq<string>)

  /** `{ storeId, missingFrom }`: a store id and the source that lacks it. */
  datatype Missing = Missing(storeId: string, missingFrom: string)

  // ---------------------------------------------------------------------
  // getData: the request URL (the fetch itself is not modelled).

  /** The piece one parameter adds: `&${encodeURI(key)}=${encodeURI(value)}`. */
  function QueryPair(param: (string, string), encodeUri: string -> string): (piece: string)
    ensures |piece| == 2 + |encodeUri(param.0)| + |encodeUri(param.1)| && piece[0] == '&'
    ensures piece[1 + |encodeUri(param.0)|] == '='
  {
    "&" + encodeUri(param.0) + "=" + encodeUri(param.1)
  }

  /** The suffix the `reduce` appends: one piece per parameter, in entry order. */
  function QueryPairs(params: seq<(string, string)>, encodeUri: string -> string): (q: string)
    ensures q == "" <==> params == []
    ensures |q| >= 2 * |params|
  {
    if params == [] then ""
    else QueryPairs(params[..|params| - 1], encodeUri) + QueryPair(params[|params| - 1], encodeUri)
  }

  /** The address `getData` requests. `params` is `None` only when a falsy
      value other than `undefined` is passed explicitly; an omitted or
      `undefined` argument takes the default `{}`, which is truthy, so a `'?'`
      follows the path even when there is no parameter. */
  function RequestUrl(url: string, baseUrl: string, params: Option<seq<(string, string)>>,
                      encodeUri: string -> string): (full: string)
    ensures baseUrl + url <= full
    ensures params.None? ==> full == baseUrl + url
    ensures params.Some? ==> |full| > |baseUrl + url| && full[|baseUrl + url|] == '?'
  {
    match params
    case None => baseUrl + url
    case Some(entries) => baseUrl + url + "?" + QueryPairs(entries, encodeUri)
  }

  /** Each parameter contributes its own `&key=value` piece, in entry order. */
  lemma {:induction false} QueryPairsAppend(a: seq<(string, string)>, b: seq<(string, string)>,
                                            encodeUri: string -> string)
    ensures QueryPairs(a + b, encodeUri) == QueryPairs(a, encodeUri) + QueryPairs(b, encodeUri)
    decreases |b|
  {
    if b == [] {
      assert a + b == a;
    } else {
      var b', last := b[..|b| - 1], b[|b| - 1];
      QueryPairsAppend(a, b', encodeUri);
      assert (a + b)[..|a + b| - 1] == a + b';
      assert (a + b)[|a + b| - 1] == last;
      calc {
        QueryPairs(a + b, encodeUri);
        QueryPairs(a + b', encodeUri) + QueryPair(last, encodeUri);
        (QueryPairs(a, encodeUri) + QueryPairs(b', encodeUri)) + QueryPair(last, encodeUri);
        QueryPairs(a, encodeUri) + (QueryPairs(b', encodeUri) + QueryPair(last, encodeUri));
        QueryPairs(a, encodeUri) + QueryPairs(b, encodeUri);
      }
    }
  }

  /** With the default (empty) parameters the address is the path and a `'?'`. */
  lemma NoParamsUrl(url: string, baseUrl: string, encodeUri: string -> string)
    ensures RequestUrl(url, baseUrl, Some([]), encodeUri) == baseUrl + url + "?"
  {
  }

  /** The first lines of `getData`: prefix the base, then, when `params` is
      truthy, fold the entries onto `url + '?'`. */
  method GetDataUrl(url: string, baseUrl: string, params: Option<seq<(string, string)>>,
                    encodeUri: string -> string) returns (full: string)
    ensures full == RequestUrl(url, baseUrl, params, encodeUri)
  {
    full := baseUrl + url;
    if params.Some? {
      var entries := params.value;
      var acc := full + "?";
      var i := 0;
      while i < |entries|
        invariant 0 <= i <= |entries|
        invariant acc == full + "?" + QueryPairs(entries[..i], encodeUri)
      {
        var (key, value) := entries[i];
        assert entries[..i + 1][..i] == entries[..i];
        acc := acc + "&" + encodeUri(key) + "=" + encodeUri(value);
        i := i + 1;
      }
      assert entries[..|entries|] == entries;
      full := acc;
    }
  }

  // ---------------------------------------------------------------------
  // createStoresArray

  /** One slot per raw entry: a summary of the entry when its type is
      `'stores'`, the absent marker (`false`) otherwise. */
  function CreateStoresArray(entries: seq<RawEntry>): (slots: seq<Option<StoreSummary>>)
    ensures |slots| == |entries|
    ensures forall i :: 0 <= i < |entries| ==> (slots[i].Some? <==> entries[i].kind == "stores")
    ensures forall i :: 0 <= i < |entries| && slots[i].Some? ==>
      slots[i].value == StoreSummary(entries[i].id, entries[i].attributeKeys)
  {
    if entries == [] then []
    else
      var e := entries[0];
      [if e.kind == "stores" then Some(StoreSummary(e.id, e.attributeKeys)) else None]
        + CreateStoresArray(entries[1..])
  }

  /** Normalising is done entry by entry, so it distributes over concatenation. */
  lemma {:induction false} CreateStoresArrayAppend(a: seq<RawEntry>, b: seq<RawEntry>)
    ensures CreateStoresArray(a + b) == CreateStoresArray(a) + CreateStoresArray(b)
  {
    if a == [] {
      assert a + b == b;
    } else {
      assert (a + b)[1..] == a[1..] + b;
      CreateStoresArrayAppend(a[1..], b);
    }
  }

  // ---------------------------------------------------------------------
  // diffStoreIdsAndFields

  /** The label of the other source: `'prod'` for `'mock'`, `'mock'` for any
      other label. */
  function MissingFrom(api: string): (other: string)
    ensures other == "prod" <==> api == "mock"
    ensures other == "prod" || other == "mock"
  {
    if api == "mock" then "prod" else "mock"
  }

  /** On the two source labels, the other source of the other source is the
      source itself. */
  lemma MissingFromSwaps(api: string)
    requires api == "mock" || api == "prod"
    ensures MissingFrom(api) != api && MissingFrom(MissingFrom(api)) == api
  {
  }

  /** `index[id]` is truthy: the id is a key and the string it maps to is not
      empty (an id index maps every id to itself, so an empty id is never
      found). */
  predicate Has(index: map<string, string>, id: string) {
    id in index && index[id] != ""
  }

  /** The `${api}Only` list: one slot per store, holding `{ storeId, missingFrom }`
      when the id is found in the target index and not in the compare index,
      and empty (`undefined`) otherwise. */
  function MissingSlots(stores: seq<StoreSummary>, targetIds: map<string, string>,
                        compareIds: map<string, string>, missingFrom: string): (only: seq<Option<Missing>>)
    ensures |only| == |stores|
    ensures forall i :: 0 <= i < |stores| ==>
      (only[i].Some? <==> Has(targetIds, stores[i].id) && !Has(compareIds, stores[i].id))
    ensures forall i :: 0 <= i < |stores| && only[i].Some? ==>
      only[i].value == Missing(stores[i].id, missingFrom)
  {
    if stores == [] then []
    else
      var last := stores[|stores| - 1];
      MissingSlots(stores[..|stores| - 1], targetIds, compareIds, missingFrom)
        + [if Has(targetIds, last.id) && !Has(compareIds, last.id)
           then Some(Missing(last.id, missingFrom)) else None]
  }

  /** Every store's field names, store after store. */
  function AllFields(stores: seq<StoreSummary>): (names: seq<string>)
    ensures forall f :: f in names <==> exists i :: 0 <= i < |stores| && f in stores[i].fields
  {
    if stores == [] then []
    else
      var init := stores[..|stores| - 1];
      var names := AllFields(init) + stores[|stores| - 1].fields;
      assert forall i :: 0 <= i < |init| ==> init[i] == stores[i];
      names
  }

  /** One scan over `stores`: collect the one-sided slots and grow the field
      union `apiFields`, seeded with the first store's fields and re-built as
      `Array.from(new Set(apiFields.concat(fields)))` at every store. The seed
      reads `stores[0]`, so the list must not be empty. */
  method DiffStoreIdsAndFields(stores: seq<StoreSummary>, targetApiIds: map<string, string>,
                               compareApiIds: map<string, string>, api: string)
    returns (only: seq<Option<Missing>>, apiFields: seq<string>)
    requires |stores| > 0
    ensures only == MissingSlots(stores, targetApiIds, compareApiIds, MissingFrom(api))
    ensures apiFields == Dedup(AllFields(stores))
    ensures NoDup(apiFields)
    ensures forall f :: f in apiFields <==> exists i :: 0 <= i < |stores| && f in stores[i].fields
    ensures FirstAppearanceOrder(apiFields, AllFields(stores))
  {
    var missingFrom := MissingFrom(api);
    apiFields := stores[0].fields;
    only := [];
    var i := 0;
    while i < |stores|
      invariant 0 <= i <= |stores|
      invariant i == 0 ==> apiFields == stores[0].fields
      invariant i > 0 ==> apiFields == Dedup(AllFields(stores[..i]))
      invariant only == MissingSlots(stores[..i], targetApiIds, compareApiIds, missingFrom)
    {
      var id, fields := stores[i].id, stores[i].fields;
      assert stores[..i + 1][..i] == stores[..i];
      assert AllFields(stores[..i + 1]) == AllFields(stores[..i]) + fields;
      if i == 0 {
        assert AllFields(stores[..1]) == fields;
        DedupAbsorb(fields, fields);
      } else {
        DedupAppend(AllFields(stores[..i]), fields);
      }
      apiFields := Dedup(apiFields + fields);
      if Has(targetApiIds, id) && !Has(compareApiIds, id) {
        only := only + [Some(Missing(id, missingFrom))];
      } else {
        only := only + [None];
      }
      i := i + 1;
    }
    assert stores[..|stores|] == stores;
    DedupFirstAppearance(AllFields(stores));
  }

  // ---------------------------------------------------------------------
  // createStores and compareFields

  /** `[...mockOnly.filter(Boolean), ...prodOnly.filter(Boolean)]`: the filled
      slots of both lists, every mock entry before every prod entry. */
  function CreateStores(mockOnly: seq<Option<Missing>>, prodOnly: seq<Option<Missing>>): (stores: seq<Missing>)
    ensures stores == Present(mockOnly + prodOnly)
    ensures forall m :: m in stores <==> Some(m) in mockOnly || Some(m) in prodOnly
    ensures |stores| <= |mockOnly| + |prodOnly|
  {
    PresentAppend(mockOnly, prodOnly);
    Present(mockOnly) + Present(prodOnly)
  }

  /** The `reduce` that pushes each mock field the prod set lacks. */
  method CompareFields(mockFields: seq<string>, prodFieldsSet: set<string>) returns (acc: seq<string>)
    ensures acc == Without(mockFields, prodFieldsSet)
    ensures forall f :: f in acc <==> f in mockFields && f !in prodFieldsSet
    ensures IsSubseq(acc, mockFields)
    ensures forall f :: multiset(acc)[f] == if f in prodFieldsSet then 0 else multiset(mockFields)[f]
  {
    acc := [];
    var i := 0;
    while i < |mockFields|
      invariant 0 <= i <= |mockFields|
      invariant acc == Without(mockFields[..i], prodFieldsSet)
    {
      var field := mockFields[i];
      assert mockFields[..i + 1][..i] == mockFields[..i];
      if field !in prodFieldsSet {
        acc := acc + [field];
      }
      i := i + 1;
    }
    assert mockFields[..|mockFields|] == mockFields;
    WithoutIsSubseq(mockFields, prodFieldsSet);
    forall f ensures multiset(acc)[f] == if f in prodFieldsSet then 0 else multiset(mockFields)[f] {
      WithoutCount(mockFields, prodFieldsSet, f);
    }
  }
}
