/**
 * The generic `query` filter: keep every item for which at least one of its
 * own properties has an entry in the query whose predicate accepts that
 * property's value (OR across fields, not AND).
 */
module GenericQuery {
  import opened JsValues
  import ArrayFilter

  /** A query: for some field names, a predicate on that field's value. */
  type FieldQuery = map<Field, Value -> bool>

  /**
   * The test inside the loop body for one property name: the query has an
   * entry for it and that predicate accepts the item's value.
   */
  predicate FieldMatches(item: Record, q: FieldQuery, k: Field)
  {
    k in item && k in q && q[k](item[k])
  }

  /** Some own property of `item` passes its query entry. */
  predicate Matches(item: Record, q: FieldQuery)
  {
    exists k | k in item :: FieldMatches(item, q, k)
  }

  /**
   * The `for ... of Object.keys(item)` loop with its early `return true`,
   * over the keys in whatever order they are enumerated.
   */
  function SearchKeys(keys: seq<Field>, item: Record, q: FieldQuery): (found: bool)
    ensures found <==> exists j :: 0 <= j < |keys| && FieldMatches(item, q, keys[j])
  {
    if keys == [] then false
    else if FieldMatches(item, q, keys[0]) then true
    else SearchKeys(keys[1..], item, q)
  }

  /**
   * Whatever order `Object.keys` lists the own properties in, the loop
   * returns true exactly when some own property matches.
   */
  lemma KeyOrderIrrelevant(keys: seq<Field>, item: Record, q: FieldQuery)
    requires forall k :: k in keys <==> k in item
    ensures SearchKeys(keys, item, q) == Matches(item, q)
  {
  }

  /** `query(items, query)`. */
  function Query(items: seq<Record>, q: FieldQuery): (r: seq<Record>)
    ensures |r| <= |items|
    ensures forall j :: 0 <= j < |r| ==>
      r[j] in items && exists k | k in r[j] :: k in q && q[k](r[j][k])
    ensures forall i :: 0 <= i < |items| && (exists k | k in items[i] :: k in q && q[k](items[i][k])) ==>
      items[i] in r
  {
    ArrayFilter.Filter(items, item => Matches(item, q))
  }

  /**
   * `query` as written: filtering with the key loop, whatever key order
   * `keysOf` enumerates each item's own properties in, is `Query`.
   */
  lemma QueryIsTheLoop(items: seq<Record>, q: FieldQuery, keysOf: Record -> seq<Field>)
    requires forall r: Record, k: Field :: k in keysOf(r) <==> k in r
    ensures ArrayFilter.Filter(items, item => SearchKeys(keysOf(item), item, q)) == Query(items, q)
  {
    forall i | 0 <= i < |items|
      ensures SearchKeys(keysOf(items[i]), items[i], q) == Matches(items[i], q)
    {
      KeyOrderIrrelevant(keysOf(items[i]), items[i], q);
    }
    ArrayFilter.FilterCongruent(items, item => SearchKeys(keysOf(item), item, q), item => Matches(item, q));
  }

  /**
   * The result is the subsequence of `items` at exactly the positions of the
   * matching items, in increasing order, each position once.
   */
  lemma QueryKeepsMatchesInOrder(items: seq<Record>, q: FieldQuery)
    ensures var r, ps := Query(items, q), ArrayFilter.KeptPositions(items, item => Matches(item, q), 0);
      && |r| == |ps|
      && (forall j :: 0 <= j < |r| ==> r[j] == items[ps[j]])
      && (forall j, l :: 0 <= j < l < |ps| ==> ps[j] < ps[l])
      && (forall i :: 0 <= i < |items| ==> (i in ps <==> Matches(items[i], q)))
  {
    ArrayFilter.FilterSelectsKeptPositions(items, item => Matches(item, q));
  }

  /** OR semantics: one accepted field is enough, whatever the other predicates say. */
  lemma OneMatchingFieldSuffices(items: seq<Record>, q: FieldQuery, i: nat, k: Field)
    requires i < |items| && k in items[i] && k in q && q[k](items[i][k])
    ensures items[i] in Query(items, q)
  {
  }

  /** An item none of whose own properties has a query entry is dropped. */
  lemma UnqueriedItemExcluded(items: seq<Record>, q: FieldQuery, item: Record)
    requires item.Keys !! q.Keys
    ensures item !in Query(items, q)
  {
  }

  /** A query with no entries keeps nothing. */
  lemma EmptyQueryKeepsNothing(items: seq<Record>)
    ensures Query(items, map[]) == []
  {
    ArrayFilter.FilterNoneKept(items, item => Matches(item, map[]));
  }

  // The sample call: two people, a predicate on the name and one on the age.

  function Ted(): Record { map["name" := Str("Ted"), "age" := Num(12)] }
  function Angie(): Record { map["name" := Str("Angie"), "age" := Num(31)] }

  function SampleQuery(): FieldQuery
  {
    map["name" := (name: Value) => name == Str("Angie"),
        "age" := (age: Value) => age.Num? && age.n > 30]
  }

  /** Only Angie is kept, once, although both her fields match. */
  lemma SampleMatchesAngieOnly()
    ensures Query([Ted(), Angie()], SampleQuery()) == [Angie()]
  {
    assert !Matches(Ted(), SampleQuery()) by {
      forall k | k in Ted() ensures !FieldMatches(Ted(), SampleQuery(), k) {
        assert k == "name" || k == "age";
      }
    }
    assert FieldMatches(Angie(), SampleQuery(), "name");
  }

  /** A query nobody matches gives the empty result. */
  lemma SampleNobodyMatches()
    ensures Query([Ted(), Angie()], map["name" := (name: Value) => name == Str("Nobody")]) == []
  {
  }
}
