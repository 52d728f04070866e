# Store API comparison, modelled in Dafny

The repository compares the store lists of two sources, "mock" and "prod". It
reports two things:

- which store ids occur in one source and not the other;
- which attribute names occur on mock stores and on no prod store.

This project models the comparison pipeline on already fetched `data` arrays,
and the rule that builds the request URL. It then proves what each step
promises.

- `seqs.dfy` (module `Seqs`) gives the list vocabulary the JavaScript relies on:
  - `Present` is `filter((item) => !!item)`.
  - `Dedup` is `Array.from(new Set(xs))`. A JavaScript `Set` keeps insertion
    order, so `Dedup` keeps each element at its first occurrence.
  - `Without` is the ordered difference.
  - `FirstAppearanceOrder` and `IsSubseq` are the order properties.
- `utils.dfy` (module `Utils`) models lib/utils.js:
  - the request URL of `getData`, a method with the `reduce` loop;
  - `createStoresArray`, a function;
  - `diffStoreIdsAndFields`, a method with one loop that builds both the
    one-sided slots and the running field union;
  - `createStores`, a function;
  - `compareFields`, a method with the accumulating loop.
- `driver.dfy` (module `Driver`) models `storeApiDifference` of src/index.js:
  - the id indexes, built by a loop that mirrors the `reduce`/`Object.assign`;
  - a specification function `Compare` for the whole comparison;
  - the method `StoreApiDifference`, proved equal to `Compare`;
  - lemmas on the result: which ids are reported, in which order, and which
    fields.

Some modelling choices:

- Membership in an id index follows the code's truthiness test
  `targetApiIds[id]`. `Has(index, id)` holds when the id is a key and its value
  is a non-empty string. An id index maps each id to itself, so an empty id is
  never found. The lemmas therefore state their results for non-empty ids and
  need no precondition.
- The code throws a `TypeError` inside `diffStoreIdsAndFields` in two cases. The
  first is a source with no entries, because `stores[0]` is read at lib/utils.js:51.
  The second is a source with an entry whose `type` is not `'stores'`: its slot is
  `false`, so its `fields` is `undefined`, and spreading it throws. For the first
  slot the throw is the seed `[...stores[0].fields]` at lib/utils.js:51; for a
  later slot it is `[...fields]` at lib/utils.js:58.
  `Compare` models the throw as `Err(NoStores(api))` or
  `Err(NotAStore(api, index))`. The mock source is diffed first, so its fault
  wins.
- The code signals that non-store entries are meant to be dropped: the
  normaliser marks them with `type === 'stores' &&` (lib/utils.js:30), and
  `createStores` filters marked slots with `filter((item) => !!item)`
  (lib/utils.js:70-71). The code does not document the empty-source case; the
  assumed intent is that an empty source has no stores and no fields. The code
  throws in both cases, and `Compare` follows the code. `CorrectedCompare` is
  the intended variant, and it is proved to agree with `Compare` wherever the
  code does not throw. See "## Findings".
- `encodeURI` is a parameter `encodeUri: string -> string` with no
  interpretation.
- `params` is `Option<...>`. `None` stands for an explicitly passed falsy value
  other than `undefined` (`null`, `false`, `0`, `""`). An explicit `undefined`
  gets the default `{}` and is `Some([])`. With the default, a `'?'` is always
  appended.

## Model

| member | source | states |
|---|---|---|
| `Seqs.Present` | lib/utils.js:70-71 | the filter keeps exactly the filled slots: a value is in the result iff some slot holds it; the result is never longer than the input |
| `Seqs.PresentAppend` | lib/utils.js:68-73 | filtering a concatenation equals concatenating the filtered parts, so each part keeps its order and the first part comes first |
| `Seqs.PresentAllSome` | lib/utils.js:51-58 | when no slot is empty, the filter only unwraps the slots: same length, and slot i holds element i |
| `Seqs.Dedup` | lib/utils.js:58 | `Array.from(new Set(xs))` has no repeated element and has exactly the elements of xs |
| `Seqs.DedupOfNoDup` | lib/utils.js:58 | a list without repetitions passes through the Set unchanged |
| `Seqs.DedupAppend` | lib/utils.js:58 | de-duplicating the running union and then appending more names gives the same result as de-duplicating the whole concatenation |
| `Seqs.DedupAbsorb` | lib/utils.js:51-58 | appending names that are already present changes nothing, so the seed `stores[0].fields` being added again on the first iteration is harmless |
| `Seqs.DedupFirstAppearance` | lib/utils.js:58 | the de-duplicated list orders names by their first occurrence in the input |
| `Seqs.Without` | lib/utils.js:75-81 | a name is in the ordered difference iff it is in the list and not in the excluded set |
| `Seqs.WithoutIsSubseq` | lib/utils.js:75-81 | the difference is a subsequence of the list: the kept names stay in their order |
| `Seqs.WithoutCount` | lib/utils.js:75-81 | every occurrence of a kept name survives, and excluded names vanish completely |
| `Seqs.WithoutNoDup` | src/index.js:83-84 | removing names from a list with no repeats leaves a list with no repeats |
| `Seqs.WithoutFirstAppearance` | src/index.js:83-84 | removing names keeps the first-appearance order |
| `Seqs.WithoutCovered` | lib/utils.js:75-81 | when every name is excluded, the difference is empty |
| `Utils.QueryPair` | lib/utils.js:11 | the piece for one parameter starts with `&`, has `=` right after the encoded key, and is as long as the two encoded strings plus two |
| `Utils.QueryPairs` | lib/utils.js:10-12 | the query suffix is empty iff there are no parameters, and it has at least two characters per parameter |
| `Utils.QueryPairsAppend` | lib/utils.js:10-12 | the suffix of a concatenation of parameter lists is the concatenation of their suffixes, in entry order |
| `Utils.RequestUrl` | lib/utils.js:8-13 | the request URL starts with `baseUrl + url`; it is exactly that when params is falsy; otherwise a `'?'` follows it |
| `Utils.NoParamsUrl` | lib/utils.js:6-13 | with empty parameters the URL is exactly `baseUrl + url + "?"` |
| `Utils.GetDataUrl` | lib/utils.js:8-13 | the loop that reassigns `url` and grows it with `acc +=` yields `RequestUrl` |
| `Utils.CreateStoresArray` | lib/utils.js:26-31 | one slot per entry; slot i is filled iff the type of entry i is `'stores'`, and then it holds that entry's id and attribute keys |
| `Utils.CreateStoresArrayAppend` | lib/utils.js:26-31 | the normaliser works entry by entry, so it distributes over concatenation |
| `Utils.MissingFrom` | lib/utils.js:48 | the label is `'prod'` iff the api is `'mock'`, and `'mock'` for any other label |
| `Utils.MissingFromSwaps` | lib/utils.js:48 | on the two labels, the other source differs from the source, and the other of the other is the source |
| `Utils.Has` | lib/utils.js:59 | the truthiness test `index[id]`: the id is a key and the string it maps to is not empty (no contract; a definition) |
| `Utils.MissingSlots` | lib/utils.js:53-62 | one slot per store; slot i is filled iff the id is truthy in the target index and not in the compare index; a filled slot is `{storeId: id_i, missingFrom}` |
| `Utils.AllFields` | lib/utils.js:51-58 | a name occurs in the concatenated field lists iff some store has it |
| `Utils.DiffStoreIdsAndFields` | lib/utils.js:42-66 | for a non-empty list, returns the one-sided slots and a field list that has no repeats, holds exactly the names of all stores (their field sets may differ) and lists them in first-appearance order |
| `Utils.CreateStores` | lib/utils.js:68-73 | the merged list is the filter of the concatenated slot lists; an entry is in it iff one of the two lists holds it |
| `Utils.CompareFields` | lib/utils.js:75-81 | the pushing `reduce` yields the ordered difference: a name is kept iff it is not in the prod set; order and multiplicity are those of mockFields |
| `Driver.IdIndex` | src/index.js:56-64 | the `{ [id]: id }` object of a summary list: every id of the list maps to itself (no contract; a definition that `BuildIdIndex` is proved to build) |
| `Driver.BuildIdIndex` | src/index.js:56-64 | the index has exactly the source's ids as keys, and each key maps to itself |
| `Driver.HasIdIndex` | lib/utils.js:59 | an index built from a source finds an id iff the source has it and the id is not empty |
| `Driver.Reported` | src/index.js:67-82 | reference one-sided report: an entry is in it iff its label is the given one and its id is non-empty, in this source and not in the other |
| `Driver.PresentMissingSlots` | src/index.js:67-82 | the filled slots that the differ produces against the source's own index are exactly the reference report, in scan order |
| `Driver.Reconcile` | src/index.js:56-84 | the reconciliation once both summary lists are in hand: builds both indexes, runs both one-sided diffs, merges the reports and removes the prod field union from the mock field union (no contract; the lemmas below state its properties) |
| `Driver.StoresOrder` | src/index.js:82 | `stores` is the mock-only report followed by the prod-only report, each in its source's scan order |
| `Driver.StoresMembership` | src/index.js:67-82 | an entry is in `stores` iff its id is non-empty and held by one source only, labelled with the source that lacks it (`'prod'` for mock-only ids, `'mock'` for prod-only ids) |
| `Driver.SharedIdNotReported` | src/index.js:67-82 | an id present in both sources never appears in `stores` |
| `Driver.FieldsDifference` | src/index.js:83-84 | `fields` has no repeats; it holds a name iff some mock store has it and no prod store has it; it follows first-appearance order over the mock stores |
| `Driver.IdenticalSourcesNoDifference` | src/index.js:67-86 | when the two sources have the same ids and the same field union, both `stores` and `fields` are empty |
| `Driver.FirstAbsent` | lib/utils.js:51-58 | the differ's throwing position: every slot before it is filled, and it is an empty slot or the end of the list |
| `Driver.CheckSummaries` | lib/utils.js:51-58 | the differ gets through iff the slot list is non-empty and every slot is filled. An empty list faults at the seed. Otherwise the fault names the first empty slot |
| `Driver.Compare` | src/index.js:48-86 | the comparison succeeds iff both data arrays are non-empty and hold only stores; on failure the fault names mock when mock is at fault, and prod otherwise |
| `Driver.StoreApiDifference` | src/index.js:48-86 | the driver composes the normaliser, the index loops, both one-sided diffs and both reconcilers, and yields `Compare` |
| `Driver.SingleStoresReported` | src/index.js:67-82 | one store on each side with different non-empty ids: each store is reported as missing from the other source, mock's first |
| `Driver.SingleStoresFields` | src/index.js:67-84 | one store on each side, field lists without repeats: `fields` is the mock store's list without the prod store's names |
| `Driver.OneStoreEachSide` | src/index.js:48-86 | mock `[{1: x, y}]` against prod `[{2: y, z}]` gives stores `[{1, prod}, {2, mock}]` and fields `[x]` |
| `Driver.EmptySourceFaults` | lib/utils.js:51 | an empty mock source faults with `NoStores("mock")` |
| `Driver.NonStoreEntryFaults` | lib/utils.js:55-58 | a non-store entry after a valid store faults at its index |
| `Driver.CorrectedCompare` | lib/utils.js:26-73 | the intended comparison: filter out non-store slots before diffing, and allow an empty source (no contract; the lemmas below state its properties) |
| `Driver.SummariesOfStoresOnly` | lib/utils.js:26-31 | the filled summaries of a data array depend only on its store entries |
| `Driver.CorrectedIgnoresNonStores` | lib/utils.js:26-31 | the corrected comparison gives the same result when all non-store entries are removed first |
| `Driver.CorrectedEmptyMock` | lib/utils.js:51 | with an empty mock source, the corrected comparison reports every non-empty prod id as missing from mock, and reports no field |
| `Driver.CorrectedAgrees` | src/index.js:48-86 | when both data arrays are non-empty and hold only stores, the code does not throw, and the corrected comparison equals its result |

## Left out

- The fetch in `getData` is not modelled: `fetch`, `res.json()`, the `try/catch` and `console.error` (lib/utils.js:15-20). These are network I/O. The fetched `data` arrays are the inputs.
- `async`/`await` and `.then` chaining, the endpoint constants (src/index.js:45-46, lib/utils.js:4) and the `console.table` output (src/index.js:89-91). These are I/O and configuration.
- The meaning of `encodeURI` is not modelled. It is an uninterpreted parameter, so its `URIError` on lone surrogates is out of scope too.
- JavaScript object keys are not modelled. Ids are strings and an index is a `map<string, string>`, so two things are lost: numeric ids being turned into string keys, and keys inherited from `Object.prototype` (an id such as `toString` would look present in any plain object).
- The order of `Object.keys` (integer-like keys first) and of `Object.entries` is not modelled. Attribute keys and parameters come in as lists that are already in that order.
- An entry of type `'stores'` without `attributes` makes `Object.keys` throw. The model does not cover this: every raw entry carries its key list.
- Duplicate ids within one source need no precondition. The index keeps one key for them, and each occurrence that is missing from the other source gets its own entry in `stores`.
- `StoreApiDifference` checks the slots before it builds the indexes. The code builds the indexes first. Building an index cannot fail, so the result is the same.
- The trailing `|| []` of `compareFields` (lib/utils.js:81) is not modelled. `reduce` always returns an array there, so it has no effect.
- Dropping non-store entries (signalled by lib/utils.js:30 and lib/utils.js:70-71), and treating an empty source as having no stores and no fields (an assumed intent the code does not document), are not what `Compare` does. The code throws in both cases, and `Compare` follows the code. The intended behaviour is `CorrectedCompare`.

## Findings

| source | as written | input that shows it | evidently intended | confidence | as-written member | corrected member |
|---|---|---|---|---|---|---|
| lib/utils.js:55-58 | `createStoresArray` turns a non-store entry into `false`, the driver passes that slot to `diffStoreIdsAndFields`, and `[...fields]` throws a `TypeError` | mock data `[{id: "1", type: "stores", attributes: {x}}, {id: "7", type: "images", attributes: {url}}]` | non-store entries contribute nothing to ids, missing lists or fields | medium, not executed | `Driver.NonStoreEntryFaults` | `Driver.CorrectedIgnoresNonStores` |
| lib/utils.js:51 | the union seed `[...stores[0].fields]` throws when a source has no entries | mock data `[]` | an empty source has an empty field union and reports no ids of its own | low, not executed | `Driver.EmptySourceFaults` | `Driver.CorrectedEmptyMock` |
