/** `storeApiDifference` of src/index.js: normalise both fetched `data`
    arrays, index each source's ids, run the one-sided differ once per
    source, and reconcile the two results into `{ stores, fields }`. The
    fetches are not modelled: the two `data` arrays are the inputs. */
module Driver {
  import opened Seqs
  import opened Utils

  /** The `TypeError` the differ throws, and for which source: the source had
      no entry at all (`stores[0]` is undefined), or the entry at `index` was
      not a store, so its `fields` is undefined and cannot be spread. */
  datatype Fault = NoStores(api: string) | NotAStore(api: string, index: nat)

  datatype Result<T> = Ok(value: T) | Err(fault: Fault)

  /** `{ stores, fields }`. */
  datatype Difference = Difference(stores: seq<Missing>, fields: seq<string>)

  /** The ids of a list of summaries. */
  function IdsOf(stores: seq<StoreSummary>): set<string> {
    set i | 0 <= i < |stores| :: stores[i].id
  }

  /** The id index `{ [id]: id, ... }` of a list of summaries. */
  function IdIndex(stores: seq<StoreSummary>): map<string, string> {
    map id | id in IdsOf(stores) :: id
  }

  /** `stores.reduce((acc, { id }) => Object.assign(acc, { [id]: id }), {})`. */
  method BuildIdIndex(stores: seq<StoreSummary>) returns (ids: map<string, string>)
    ensures ids.Keys == IdsOf(stores)
    ensures forall id :: id in ids ==> ids[id] == id
  {
    ids := map[];
    var i := 0;
    while i < |stores|
      invariant 0 <= i <= |stores|
      invariant ids.Keys == IdsOf(stores[..i])
      invariant forall id :: id in ids ==> ids[id] == id
    {
      var id := stores[i].id;
      assert IdsOf(stores[..i + 1]) == IdsOf(stores[..i]) + {id} by {
        assert forall k :: 0 <= k < i ==> stores[..i + 1][k] == stores[..i][k];
      }
      ids := ids[id := id];
      i := i + 1;
    }
    assert stores[..|stores|] == stores;
  }

  /** A source's own index finds each of its non-empty ids; another index finds
      an id exactly when that source has it and it is not empty. */
  lemma HasIdIndex(stores: seq<StoreSummary>, id: string)
    ensures Has(IdIndex(stores), id) <==> id in IdsOf(stores) && id != ""
  {
  }

  /** Reference definition of a one-sided report: in scan order, every store
      whose id is not empty and not among `otherIds`, labelled with the
      source that lacks it. */
  function Reported(stores: seq<StoreSummary>, otherIds: set<string>, missingFrom: string): (r: seq<Missing>)
    ensures forall m :: m in r <==>
      m.missingFrom == missingFrom && m.storeId != "" && m.storeId !in otherIds
      && m.storeId in IdsOf(stores)
  {
    if stores == [] then []
    else
      var init, last := stores[..|stores| - 1], stores[|stores| - 1];
      assert IdsOf(stores) == IdsOf(init) + {last.id} by {
        assert forall k :: 0 <= k < |init| ==> init[k] == stores[k];
        assert stores == init + [last];
      }
      Reported(init, otherIds, missingFrom)
        + if last.id != "" && last.id !in otherIds then [Missing(last.id, missingFrom)] else []
  }

  /** Filtering the differ's slots for a source scanned against its own index
      gives the reference report. */
  lemma {:induction false} PresentMissingSlots(stores: seq<StoreSummary>, whole: seq<StoreSummary>,
                                               other: seq<StoreSummary>, missingFrom: string)
    requires IdsOf(stores) <= IdsOf(whole)
    ensures Present(MissingSlots(stores, IdIndex(whole), IdIndex(other), missingFrom))
         == Reported(stores, IdsOf(other), missingFrom)
    decreases |stores|
  {
    if stores != [] {
      var init, last := stores[..|stores| - 1], stores[|stores| - 1];
      assert IdsOf(init) <= IdsOf(stores) by {
        assert forall k :: 0 <= k < |init| ==> init[k] == stores[k];
      }
      assert last.id in IdsOf(stores) by {
        assert stores[|stores| - 1] == last;
      }
      PresentMissingSlots(init, whole, other, missingFrom);
      var slot := if Has(IdIndex(whole), last.id) && !Has(IdIndex(other), last.id)
                  then Some(Missing(last.id, missingFrom)) else None;
      PresentAppend(MissingSlots(init, IdIndex(whole), IdIndex(other), missingFrom), [slot]);
      HasIdIndex(whole, last.id);
      HasIdIndex(other, last.id);
    }
  }

  // ---------------------------------------------------------------------
  // The comparison as a function of the two summary lists.

  /** Lines 56-86 once both summary lists are in hand. */
  function Reconcile(mock: seq<StoreSummary>, prod: seq<StoreSummary>): Difference {
    var mockIds, prodIds := IdIndex(mock), IdIndex(prod);
    var mockOnly := MissingSlots(mock, mockIds, prodIds, MissingFrom("mock"));
    var prodOnly := MissingSlots(prod, prodIds, mockIds, MissingFrom("prod"));
    Difference(CreateStores(mockOnly, prodOnly),
               Without(Dedup(AllFields(mock)), SetOf(Dedup(AllFields(prod)))))
  }

  /** `stores` is the mock-only report followed by the prod-only report, each
      in its source's scan order. */
  lemma StoresOrder(mock: seq<StoreSummary>, prod: seq<StoreSummary>)
    ensures Reconcile(mock, prod).stores
         == Reported(mock, IdsOf(prod), "prod") + Reported(prod, IdsOf(mock), "mock")
  {
    PresentMissingSlots(mock, mock, prod, "prod");
    PresentMissingSlots(prod, prod, mock, "mock");
  }

  /** An entry is reported exactly when its id is non-empty and held by one
      source only, labelled with the source that lacks it. */
  lemma StoresMembership(mock: seq<StoreSummary>, prod: seq<StoreSummary>, m: Missing)
    ensures m in Reconcile(mock, prod).stores <==>
      m.storeId != "" &&
      ((m.missingFrom == "prod" && m.storeId in IdsOf(mock) && m.storeId !in IdsOf(prod)) ||
       (m.missingFrom == "mock" && m.storeId in IdsOf(prod) && m.storeId !in IdsOf(mock)))
  {
    StoresOrder(mock, prod);
  }

  /** An id present in both sources is never reported. */
  lemma SharedIdNotReported(mock: seq<StoreSummary>, prod: seq<StoreSummary>, id: string)
    requires id in IdsOf(mock) && id in IdsOf(prod)
    ensures forall m :: m in Reconcile(mock, prod).stores ==> m.storeId != id
  {
    forall m | m in Reconcile(mock, prod).stores ensures m.storeId != id {
      StoresMembership(mock, prod, m);
    }
  }

  /** `fields`: the mock field union minus the prod field union, without
      repetitions and in the order names first appear in the mock stores. */
  lemma FieldsDifference(mock: seq<StoreSummary>, prod: seq<StoreSummary>)
    ensures NoDup(Reconcile(mock, prod).fields)
    ensures forall f :: f in Reconcile(mock, prod).fields <==>
      (exists i :: 0 <= i < |mock| && f in mock[i].fields) &&
      !(exists j :: 0 <= j < |prod| && f in prod[j].fields)
    ensures FirstAppearanceOrder(Reconcile(mock, prod).fields, AllFields(mock))
  {
    var mockFields := Dedup(AllFields(mock));
    var prodSet := SetOf(Dedup(AllFields(prod)));
    WithoutNoDup(mockFields, prodSet);
    DedupFirstAppearance(AllFields(mock));
    WithoutFirstAppearance(mockFields, prodSet, AllFields(mock));
  }

  /** Two sources with the same ids and the same field union differ in nothing. */
  lemma IdenticalSourcesNoDifference(mock: seq<StoreSummary>, prod: seq<StoreSummary>)
    requires IdsOf(mock) == IdsOf(prod)
    requires SetOf(AllFields(mock)) == SetOf(AllFields(prod))
    ensures Reconcile(mock, prod) == Difference([], [])
  {
    var d := Reconcile(mock, prod);
    if d.stores != [] {
      StoresMembership(mock, prod, d.stores[0]);
      assert false;
    }
    WithoutCovered(Dedup(AllFields(mock)), SetOf(Dedup(AllFields(prod))));
  }

  // ---------------------------------------------------------------------
  // The comparison on the fetched data, as the code runs it.

  /** Where the differ throws, for one source's normalised slots: an empty
      list fails at the seed, and otherwise the first absent slot fails. */
  function FirstAbsent(slots: seq<Option<StoreSummary>>): (i: nat)
    ensures i <= |slots|
    ensures forall k :: 0 <= k < i ==> slots[k].Some?
    ensures i < |slots| ==> slots[i].None?
  {
    if slots == [] then 0
    else if slots[0].None? then 0
    else 1 + FirstAbsent(slots[1..])
  }

  /** The summaries the differ gets through, or the fault it throws. */
  function CheckSummaries(api: string, slots: seq<Option<StoreSummary>>): (r: Result<seq<StoreSummary>>)
    ensures r.Ok? <==> |slots| > 0 && forall i :: 0 <= i < |slots| ==> slots[i].Some?
    ensures r.Ok? ==> |r.value| == |slots| && forall i :: 0 <= i < |slots| ==> slots[i] == Some(r.value[i])
    ensures |slots| == 0 ==> r == Err(NoStores(api))
    ensures r.Err? && |slots| > 0 ==>
      r.fault.NotAStore? && r.fault.api == api && r.fault.index < |slots|
      && slots[r.fault.index].None? && forall k :: 0 <= k < r.fault.index ==> slots[k].Some?
  {
    if |slots| == 0 then Err(NoStores(api))
    else
      var i := FirstAbsent(slots);
      if i < |slots| then Err(NotAStore(api, i))
      else
        PresentAllSome(slots);
        Ok(Present(slots))
  }

  /** Every entry of a non-empty data array is a store. */
  predicate OnlyStores(data: seq<RawEntry>) {
    |data| > 0 && forall i :: 0 <= i < |data| ==> data[i].kind == "stores"
  }

  /** What `storeApiDifference` yields for two fetched `data` arrays: the
      difference when both are non-empty lists of stores, and otherwise the
      fault of the first source (mock before prod) that is not. */
  function Compare(mockData: seq<RawEntry>, prodData: seq<RawEntry>): (r: Result<Difference>)
    ensures r.Ok? <==> OnlyStores(mockData) && OnlyStores(prodData)
    ensures r.Err? ==> r.fault.api == (if OnlyStores(mockData) then "prod" else "mock")
  {
    match CheckSummaries("mock", CreateStoresArray(mockData))
    case Err(f) => Err(f)
    case Ok(mock) =>
      match CheckSummaries("prod", CreateStoresArray(prodData))
      case Err(f) => Err(f)
      case Ok(prod) => Ok(Reconcile(mock, prod))
  }

  /** The driver. Indexes are built after the slots are checked; in the code
      they are built first, which cannot fail and changes nothing else. */
  method StoreApiDifference(mockData: seq<RawEntry>, prodData: seq<RawEntry>) returns (r: Result<Difference>)
    ensures r == Compare(mockData, prodData)
  {
    var mockStores := CreateStoresArray(mockData);
    var prodStores := CreateStoresArray(prodData);
    var mockCheck := CheckSummaries("mock", mockStores);
    if mockCheck.Err? {
      return Err(mockCheck.fault);
    }
    var prodCheck := CheckSummaries("prod", prodStores);
    if prodCheck.Err? {
      return Err(prodCheck.fault);
    }
    var mock, prod := mockCheck.value, prodCheck.value;
    var mockIds := BuildIdIndex(mock);
    var prodIds := BuildIdIndex(prod);
    assert mockIds == IdIndex(mock);
    assert prodIds == IdIndex(prod);
    var mockOnly, mockFields := DiffStoreIdsAndFields(mock, mockIds, prodIds, "mock");
    var prodOnly, prodFields := DiffStoreIdsAndFields(prod, prodIds, mockIds, "prod");
    var stores := CreateStores(mockOnly, prodOnly);
    var prodFieldsSet := SetOf(prodFields);
    var fields := CompareFields(mockFields, prodFieldsSet);
    r := Ok(Difference(stores, fields));
  }

  // ---------------------------------------------------------------------
  // Scenarios.

  /** One store on each side, different ids, overlapping fields. */
  lemma OneStoreEachSide()
    ensures Compare([RawEntry("1", "stores", ["x", "y"])], [RawEntry("2", "stores", ["y", "z"])])
         == Ok(Difference([Missing("1", "prod"), Missing("2", "mock")], ["x"]))
  {
    var mockData, prodData := [RawEntry("1", "stores", ["x", "y"])], [RawEntry("2", "stores", ["y", "z"])];
    var mock, prod := [StoreSummary("1", ["x", "y"])], [StoreSummary("2", ["y", "z"])];
    assert CreateStoresArray(mockData) == [Some(mock[0])];
    assert CreateStoresArray(prodData) == [Some(prod[0])];
    var mockCheck, prodCheck := CheckSummaries("mock", [Some(mock[0])]), CheckSummaries("prod", [Some(prod[0])]);
    assert mockCheck.Ok? && mockCheck.value[0] == mock[0];
    assert prodCheck.Ok? && prodCheck.value[0] == prod[0];
    assert mockCheck.value == mock && prodCheck.value == prod;
    OneStoreEachSideStores();
    OneStoreEachSideFields();
  }

  /** The store half of the scenario: "1" is missing from prod, "2" from mock. */
  lemma OneStoreEachSideStores()
    ensures Reconcile([StoreSummary("1", ["x", "y"])], [StoreSummary("2", ["y", "z"])]).stores
         == [Missing("1", "prod"), Missing("2", "mock")]
  {
    SingleStoresReported(StoreSummary("1", ["x", "y"]), StoreSummary("2", ["y", "z"]));
  }

  /** With one store on each side and two different non-empty ids, each store
      is reported as missing from the other source, mock's first. */
  lemma SingleStoresReported(mock: StoreSummary, prod: StoreSummary)
    requires mock.id != "" && prod.id != "" && mock.id != prod.id
    ensures Reconcile([mock], [prod]).stores == [Missing(mock.id, "prod"), Missing(prod.id, "mock")]
  {
    assert IdsOf([mock]) == {mock.id} && IdsOf([prod]) == {prod.id} by {
      assert [mock][0] == mock && [prod][0] == prod;
    }
    StoresOrder([mock], [prod]);
    ReportedSingle(mock, {prod.id}, "prod");
    ReportedSingle(prod, {mock.id}, "mock");
  }

  /** A single store missing from the other source is reported on its own. */
  lemma ReportedSingle(store: StoreSummary, otherIds: set<string>, missingFrom: string)
    requires store.id != "" && store.id !in otherIds
    ensures Reported([store], otherIds, missingFrom) == [Missing(store.id, missingFrom)]
  {
    assert [store][..0] == [];
  }

  /** The field half of the scenario: only "x" is on mock and not on prod. */
  lemma OneStoreEachSideFields()
    ensures Reconcile([StoreSummary("1", ["x", "y"])], [StoreSummary("2", ["y", "z"])]).fields == ["x"]
  {
    SingleStoresFields(StoreSummary("1", ["x", "y"]), StoreSummary("2", ["y", "z"]));
    ExcludeOnlyLast();
  }

  /** With one store on each side whose field lists have no repeats, `fields`
      is the mock store's list without the prod store's names. */
  lemma SingleStoresFields(mock: StoreSummary, prod: StoreSummary)
    requires NoDup(mock.fields) && NoDup(prod.fields)
    ensures Reconcile([mock], [prod]).fields == Without(mock.fields, SetOf(prod.fields))
  {
    assert [mock][..0] == [] && [prod][..0] == [];
    assert AllFields([mock]) == mock.fields;
    assert AllFields([prod]) == prod.fields;
    DedupOfNoDup(mock.fields);
    DedupOfNoDup(prod.fields);
  }

  /** Removing {"y", "z"} from ["x", "y"] leaves ["x"]. */
  lemma ExcludeOnlyLast()
    ensures Without(["x", "y"], SetOf(["y", "z"])) == ["x"]
  {
    var excluded := SetOf(["y", "z"]);
    assert "y" in excluded && "x" !in excluded;
    assert ["x", "y"][..1] == ["x"] && ["x"][..0] == [];
    assert Without(["x"], excluded) == ["x"];
  }

  /** An empty mock source makes the differ throw at its seed. */
  lemma EmptySourceFaults(prodData: seq<RawEntry>)
    ensures Compare([], prodData) == Err(NoStores("mock"))
  {
  }

  /** A non-store entry beside valid stores makes the differ throw on it. */
  lemma NonStoreEntryFaults()
    ensures Compare([RawEntry("1", "stores", ["x"]), RawEntry("7", "images", ["url"])],
                    [RawEntry("1", "stores", ["x"])])
         == Err(NotAStore("mock", 1))
  {
    var slots := CreateStoresArray([RawEntry("1", "stores", ["x"]), RawEntry("7", "images", ["url"])]);
    assert slots[1] == None;
  }

  // ---------------------------------------------------------------------
  // The comparison with absent slots dropped and empty sources allowed.

  /** The store entries of a data array, in order. */
  function StoresOnly(data: seq<RawEntry>): (r: seq<RawEntry>)
    ensures forall e :: e in r <==> e in data && e.kind == "stores"
  {
    if data == [] then []
    else
      assert data == [data[0]] + data[1..];
      (if data[0].kind == "stores" then [data[0]] else []) + StoresOnly(data[1..])
  }

  /** The comparison that drops non-store entries before diffing and lets a
      source be empty. */
  function CorrectedCompare(mockData: seq<RawEntry>, prodData: seq<RawEntry>): Difference {
    Reconcile(Present(CreateStoresArray(mockData)), Present(CreateStoresArray(prodData)))
  }

  /** The summaries of a data array depend only on its store entries. */
  lemma {:induction false} SummariesOfStoresOnly(data: seq<RawEntry>)
    ensures Present(CreateStoresArray(data)) == Present(CreateStoresArray(StoresOnly(data)))
  {
    if data != [] {
      var e, rest := data[0], data[1..];
      SummariesOfStoresOnly(rest);
      var slot := if e.kind == "stores" then Some(StoreSummary(e.id, e.attributeKeys)) else None;
      assert CreateStoresArray(data) == [slot] + CreateStoresArray(rest);
      PresentAppend([slot], CreateStoresArray(rest));
      if e.kind == "stores" {
        var kept := StoresOnly(rest);
        assert StoresOnly(data) == [e] + kept;
        assert ([e] + kept)[1..] == kept;
        assert CreateStoresArray(StoresOnly(data)) == [slot] + CreateStoresArray(kept);
        PresentAppend([slot], CreateStoresArray(kept));
      } else {
        assert StoresOnly(data) == StoresOnly(rest);
      }
    }
  }

  /** Non-store entries contribute nothing to the corrected comparison. */
  lemma CorrectedIgnoresNonStores(mockData: seq<RawEntry>, prodData: seq<RawEntry>)
    ensures CorrectedCompare(mockData, prodData)
         == CorrectedCompare(StoresOnly(mockData), StoresOnly(prodData))
  {
    SummariesOfStoresOnly(mockData);
    SummariesOfStoresOnly(prodData);
  }

  /** With an empty mock source, the corrected comparison reports every
      non-empty prod id as missing from mock and no field. */
  lemma CorrectedEmptyMock(prodData: seq<RawEntry>)
    ensures CorrectedCompare([], prodData)
         == Difference(Reported(Present(CreateStoresArray(prodData)), {}, "mock"), [])
  {
    StoresOrder([], Present(CreateStoresArray(prodData)));
    assert IdsOf([]) == {};
  }

  /** Where the code gets through, the corrected comparison agrees with it. */
  lemma CorrectedAgrees(mockData: seq<RawEntry>, prodData: seq<RawEntry>)
    requires OnlyStores(mockData) && OnlyStores(prodData)
    ensures Compare(mockData, prodData).Ok?
    ensures CorrectedCompare(mockData, prodData) == Compare(mockData, prodData).value
  {
  }
}
