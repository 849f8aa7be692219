/**
  The reduce step of `prep_w2v`: the per-document tables are added, key by
  key, into one table `all_tokens`, while `token_nb` accumulates every count
  added.
 */
module Aggregation {
  import opened Tables

  /** `acc` after `acc[k] += result[k]` for each of `keys`, in turn. */
  function AddEntries(acc: Table, result: Table, keys: seq<string>): Table
    decreases |keys|
  {
    if keys == [] then acc else AddEntries(acc.Inc(keys[0], result.Get(keys[0])), result, keys[1..])
  }

  /** `acc` after adding every item of `result`, in the order `result.items()` yields them. */
  function AddTable(acc: Table, result: Table): Table {
    AddEntries(acc, result, result.order)
  }

  /** `acc` after adding each of `results`, in turn. */
  function MergeInto(acc: Table, results: seq<Table>): Table
    decreases |results|
  {
    if results == [] then acc else MergeInto(AddTable(acc, results[0]), results[1..])
  }

  /** `all_tokens` once every result has been added to the empty table. */
  function Merged(results: seq<Table>): Table {
    MergeInto(Empty, results)
  }

  /** The sum, over `results`, of `f` of each. */
  function SumOf(results: seq<Table>, f: Table -> nat): nat {
    if results == [] then 0 else f(results[0]) + SumOf(results[1..], f)
  }

  /** The count a table gives to `k`. */
  function CountIn(k: string): Table -> nat {
    (t: Table) => t.Get(k)
  }

  /** The sum of the counts of a table. */
  function TotalOf(): Table -> nat {
    (t: Table) => t.Total()
  }

  /** Every result holds its keys once each. */
  predicate AllValid(results: seq<Table>) {
    forall i :: 0 <= i < |results| ==> results[i].Valid()
  }

  /** The inner loop of the merge: adds the items of one result to `all_tokens` and to `token_nb`. */
  method AddResult(allTokens: Table, tokenNb: nat, result: Table) returns (newTokens: Table, newNb: nat)
    requires allTokens.Valid() && result.Valid()
    requires tokenNb == allTokens.Total()
    ensures newTokens == AddTable(allTokens, result)
    ensures newTokens.Valid()
    ensures newNb == newTokens.Total()
  {
    newTokens, newNb := allTokens, tokenNb;
    for j := 0 to |result.order|
      invariant newTokens == AddEntries(allTokens, result, result.order[..j])
      invariant newTokens.Valid()
      invariant newNb == newTokens.Total()
    {
      var k := result.order[j];
      var v := result.count[k];
      AddEntriesSnoc(allTokens, result, result.order, j);
      TotalInc(newTokens, k, v);
      newTokens := newTokens.Inc(k, v);
      newNb := newNb + v;
    }
    assert result.order[..|result.order|] == result.order;
  }

  /** Adding the entries of `a + b` is adding those of `a`, then those of `b`. */
  lemma {:induction false} AddEntriesAppend(acc: Table, result: Table, a: seq<string>, b: seq<string>)
    ensures AddEntries(acc, result, a + b) == AddEntries(AddEntries(acc, result, a), result, b)
    decreases |a|
  {
    if a != [] {
      assert (a + b)[0] == a[0] && (a + b)[1..] == a[1..] + b;
      AddEntriesAppend(acc.Inc(a[0], result.Get(a[0])), result, a[1..], b);
    } else {
      assert a + b == b;
    }
  }

  /** Adding the entries of `keys[..j + 1]` is adding those of `keys[..j]`, then entry `j`. */
  lemma AddEntriesSnoc(acc: Table, result: Table, keys: seq<string>, j: nat)
    requires j < |keys|
    ensures AddEntries(acc, result, keys[..j + 1])
         == AddEntries(acc, result, keys[..j]).Inc(keys[j], result.Get(keys[j]))
  {
    assert keys[..j + 1] == keys[..j] + [keys[j]];
    AddEntriesAppend(acc, result, keys[..j], [keys[j]]);
    assert [keys[j]][1..] == [];
  }

  /**
    The merge loop of `prep_w2v`: every result, then every item of it, is
    added to `all_tokens`, and its count to `token_nb`. Each key ends up with
    the sum of its counts over all results, and `token_nb` with the sum of all
    counts.
   */
  method MergeCounts(results: seq<Table>) returns (allTokens: Table, tokenNb: nat)
    requires AllValid(results)
    ensures allTokens == Merged(results)
    ensures allTokens.Valid()
    ensures forall k :: allTokens.Get(k) == SumOf(results, CountIn(k))
    ensures forall k :: k in allTokens.count <==> exists i :: 0 <= i < |results| && k in results[i].count
    ensures tokenNb == allTokens.Total() == SumOf(results, TotalOf())
  {
    allTokens, tokenNb := Empty, 0;
    for i := 0 to |results|
      invariant MergeInto(allTokens, results[i..]) == Merged(results)
      invariant allTokens.Valid()
      invariant tokenNb == allTokens.Total()
    {
      assert results[i..][0] == results[i] && results[i..][1..] == results[i + 1..];
      allTokens, tokenNb := AddResult(allTokens, tokenNb, results[i]);
    }
    MergedCounts(results);
  }

  /** Adding entries keeps the keys listed once each. */
  lemma {:induction false} AddEntriesValid(acc: Table, result: Table, keys: seq<string>)
    requires acc.Valid()
    ensures AddEntries(acc, result, keys).Valid()
    decreases |keys|
  {
    if keys != [] {
      AddEntriesValid(acc.Inc(keys[0], result.Get(keys[0])), result, keys[1..]);
    }
  }

  /**
    Adding the entries of distinct `keys` adds each listed key's count and
    nothing else, and inserts exactly the listed keys.
   */
  lemma {:induction false} AddEntriesGet(acc: Table, result: Table, keys: seq<string>)
    requires Distinct(keys)
    ensures forall k :: AddEntries(acc, result, keys).Get(k) == acc.Get(k) + (if k in keys then result.Get(k) else 0)
    ensures forall k :: k in AddEntries(acc, result, keys).count <==> k in acc.count || k in keys
    decreases |keys|
  {
    if keys != [] {
      var k0 := keys[0];
      DistinctTail(keys);
      AddEntriesGet(acc.Inc(k0, result.Get(k0)), result, keys[1..]);
      forall k ensures k in keys <==> k == k0 || k in keys[1..] {
        assert keys == [k0] + keys[1..];
      }
    }
  }

  /** The tail of a run of distinct keys is distinct and does not hold the head. */
  lemma {:induction false} DistinctTail(keys: seq<string>)
    requires Distinct(keys) && keys != []
    ensures Distinct(keys[1..])
    ensures keys[0] !in keys[1..]
  {
    forall i, j | 0 <= i < j < |keys[1..]| ensures keys[1..][i] != keys[1..][j] {
      assert keys[1..][i] == keys[i + 1] && keys[1..][j] == keys[j + 1];
    }
    forall j | 0 <= j < |keys[1..]| ensures keys[1..][j] != keys[0] {
      assert keys[1..][j] == keys[j + 1];
    }
  }

  /** Adding the entries of `keys` adds the sum of their counts to the total. */
  lemma {:induction false} AddEntriesTotal(acc: Table, result: Table, keys: seq<string>)
    requires acc.Valid()
    ensures AddEntries(acc, result, keys).Total() == acc.Total() + SumOver(keys, result)
    decreases |keys|
  {
    if keys != [] {
      var k0 := keys[0];
      var next := acc.Inc(k0, result.Get(k0));
      assert AddEntries(acc, result, keys) == AddEntries(next, result, keys[1..]);
      TotalInc(acc, k0, result.Get(k0));
      AddEntriesTotal(next, result, keys[1..]);
      SumOverCons(keys, result);
    }
  }

  /** The sum of the counts of a run of keys is the first key's count plus that of the rest. */
  lemma {:induction false} SumOverCons(keys: seq<string>, t: Table)
    requires keys != []
    ensures SumOver(keys, t) == t.Get(keys[0]) + SumOver(keys[1..], t)
    decreases |keys|
  {
    if |keys| > 1 {
      var init := keys[..|keys| - 1];
      SumOverCons(init, t);
      assert init[0] == keys[0] && init[1..] == keys[1..][..|keys[1..]| - 1];
      assert keys[1..][|keys[1..]| - 1] == keys[|keys| - 1];
    } else {
      assert keys[1..] == [] && keys[..0] == [];
    }
  }

  /** Adding a result adds its count to every key, and its total to the total. */
  lemma {:induction false} AddTableCounts(acc: Table, result: Table)
    requires acc.Valid() && result.Valid()
    ensures AddTable(acc, result).Valid()
    ensures forall k :: AddTable(acc, result).Get(k) == acc.Get(k) + result.Get(k)
    ensures forall k :: k in AddTable(acc, result).count <==> k in acc.count || k in result.count
    ensures AddTable(acc, result).Total() == acc.Total() + result.Total()
  {
    AddEntriesValid(acc, result, result.order);
    AddEntriesGet(acc, result, result.order);
    AddEntriesTotal(acc, result, result.order);
  }

  /** The tail of a run of valid results is valid. */
  lemma AllValidTail(results: seq<Table>)
    requires AllValid(results) && results != []
    ensures results[0].Valid() && AllValid(results[1..])
  {
    forall i | 0 <= i < |results[1..]| ensures results[1..][i].Valid() {
      assert results[1..][i] == results[i + 1];
    }
  }

  /** Merging keeps the keys listed once each, and adds the results' totals to the total. */
  lemma {:induction false} MergeIntoTotal(acc: Table, results: seq<Table>)
    requires acc.Valid() && AllValid(results)
    ensures MergeInto(acc, results).Valid()
    ensures MergeInto(acc, results).Total() == acc.Total() + SumOf(results, TotalOf())
    decreases |results|
  {
    if results != [] {
      AllValidTail(results);
      AddTableCounts(acc, results[0]);
      MergeIntoTotal(AddTable(acc, results[0]), results[1..]);
    }
  }

  /** Merging a run of results adds, to every key, the sum of its counts in them. */
  lemma {:induction false} MergeIntoGet(acc: Table, results: seq<Table>, k: string)
    requires acc.Valid() && AllValid(results)
    ensures MergeInto(acc, results).Get(k) == acc.Get(k) + SumOf(results, CountIn(k))
    decreases |results|
  {
    if results != [] {
      AllValidTail(results);
      AddTableCounts(acc, results[0]);
      MergeIntoGet(AddTable(acc, results[0]), results[1..], k);
    }
  }

  /** Some result of a non-empty run holds `k` exactly when the first or some later one does. */
  lemma SomeHoldsCons(results: seq<Table>, k: string)
    requires results != []
    ensures (exists i :: 0 <= i < |results| && k in results[i].count)
        <==> k in results[0].count || exists i :: 0 <= i < |results[1..]| && k in results[1..][i].count
  {
    if exists i :: 0 <= i < |results| && k in results[i].count {
      var i :| 0 <= i < |results| && k in results[i].count;
      if i > 0 {
        assert k in results[1..][i - 1].count;
      }
    }
    if exists i :: 0 <= i < |results[1..]| && k in results[1..][i].count {
      var i :| 0 <= i < |results[1..]| && k in results[1..][i].count;
      assert k in results[i + 1].count;
    }
  }

  /** Merging a run of results inserts exactly the keys of those results. */
  lemma {:induction false} MergeIntoKeys(acc: Table, results: seq<Table>, k: string)
    requires acc.Valid() && AllValid(results)
    ensures k in MergeInto(acc, results).count <==>
      k in acc.count || exists i :: 0 <= i < |results| && k in results[i].count
    decreases |results|
  {
    if results != [] {
      AllValidTail(results);
      AddTableCounts(acc, results[0]);
      MergeIntoKeys(AddTable(acc, results[0]), results[1..], k);
      SomeHoldsCons(results, k);
    }
  }

  /**
    After the merge, each key's count is the sum over the results of its
    count there, the keys are those of any result, and the total is the sum
    of the results' totals.
   */
  lemma {:induction false} MergedCounts(results: seq<Table>)
    requires AllValid(results)
    ensures Merged(results).Valid()
    ensures forall k :: Merged(results).Get(k) == SumOf(results, CountIn(k))
    ensures forall k :: k in Merged(results).count <==> exists i :: 0 <= i < |results| && k in results[i].count
    ensures Merged(results).Total() == SumOf(results, TotalOf())
  {
    MergeIntoTotal(Empty, results);
    forall k
      ensures Merged(results).Get(k) == SumOf(results, CountIn(k))
      ensures k in Merged(results).count <==> exists i :: 0 <= i < |results| && k in results[i].count
    {
      MergeIntoGet(Empty, results, k);
      MergeIntoKeys(Empty, results, k);
    }
  }

  /** A sum over two runs of results is the sum of the two sums. */
  lemma {:induction false} SumOfAppend(a: seq<Table>, b: seq<Table>, f: Table -> nat)
    ensures SumOf(a + b, f) == SumOf(a, f) + SumOf(b, f)
    decreases |a|
  {
    if a != [] {
      assert (a + b)[0] == a[0] && (a + b)[1..] == a[1..] + b;
      SumOfAppend(a[1..], b, f);
    } else {
      assert a + b == b;
    }
  }

  /** Summing over results with one of them taken out, plus that one, is summing over all. */
  lemma {:induction false} SumOfRemove(b: seq<Table>, j: nat, f: Table -> nat)
    requires j < |b|
    ensures SumOf(b, f) == f(b[j]) + SumOf(b[..j] + b[j + 1..], f)
  {
    var tail := [b[j]] + b[j + 1..];
    assert b == b[..j] + tail;
    SumOfAppend(b[..j], tail, f);
    assert tail[0] == b[j] && tail[1..] == b[j + 1..];
    SumOfAppend(b[..j], b[j + 1..], f);
  }

  /** A sum over results does not depend on their order. */
  lemma {:induction false} SumOfPermutation(a: seq<Table>, b: seq<Table>, f: Table -> nat)
    requires multiset(a) == multiset(b)
    ensures SumOf(a, f) == SumOf(b, f)
    decreases |a|
  {
    if a == [] {
      assert |b| == |multiset(b)| == 0;
    } else {
      var x := a[0];
      assert a == [x] + a[1..];
      assert multiset(a) == multiset{x} + multiset(a[1..]);
      assert x in multiset(b);
      var j :| 0 <= j < |b| && b[j] == x;
      var others := b[..j] + b[j + 1..];
      assert b == b[..j] + [x] + b[j + 1..];
      assert multiset(b) == multiset(b[..j]) + multiset{x} + multiset(b[j + 1..]);
      assert multiset(others) == multiset(b[..j]) + multiset(b[j + 1..]);
      assert multiset(a[1..]) == multiset(a) - multiset{x};
      assert multiset(others) == multiset(b) - multiset{x};
      SumOfPermutation(a[1..], others, f);
      SumOfRemove(b, j, f);
    }
  }

  /** A key is in some result exactly when it is in some result of a reordering. */
  lemma {:induction false} KeysPermutation(a: seq<Table>, b: seq<Table>, k: string)
    requires multiset(a) == multiset(b)
    ensures (exists i :: 0 <= i < |a| && k in a[i].count) <==> (exists j :: 0 <= j < |b| && k in b[j].count)
  {
    if exists i :: 0 <= i < |a| && k in a[i].count {
      var i :| 0 <= i < |a| && k in a[i].count;
      assert a[i] in multiset(b);
      var j :| 0 <= j < |b| && b[j] == a[i];
      assert k in b[j].count;
    }
    if exists j :: 0 <= j < |b| && k in b[j].count {
      var j :| 0 <= j < |b| && k in b[j].count;
      assert b[j] in multiset(a);
      var i :| 0 <= i < |a| && a[i] == b[j];
      assert k in a[i].count;
    }
  }

  /** A reordering of valid results is valid. */
  lemma PermutationValid(a: seq<Table>, b: seq<Table>)
    requires AllValid(a)
    requires multiset(a) == multiset(b)
    ensures AllValid(b)
  {
    forall i | 0 <= i < |b| ensures b[i].Valid() {
      assert b[i] in multiset(a);
    }
  }

  /** Two maps with the same keys and the same value at each key are equal. */
  lemma MapsEqual(ma: map<string, nat>, mb: map<string, nat>)
    requires forall k :: k in ma <==> k in mb
    requires forall k :: k in ma ==> ma[k] == mb[k]
    ensures ma == mb
  {
  }

  /**
    The merged table does not depend on the order in which the results come
    back: any reordering gives the same counts and the same `token_nb`.
    (Only the key order of `all_tokens` can differ.)
   */
  lemma {:induction false} MergeOrderIndependent(a: seq<Table>, b: seq<Table>)
    requires AllValid(a)
    requires multiset(a) == multiset(b)
    ensures AllValid(b)
    ensures Merged(a).count == Merged(b).count
    ensures Merged(a).Total() == Merged(b).Total()
  {
    PermutationValid(a, b);
    MergeIntoTotal(Empty, a);
    MergeIntoTotal(Empty, b);
    SumOfPermutation(a, b, TotalOf());
    var ma, mb := Merged(a).count, Merged(b).count;
    forall k ensures k in ma <==> k in mb {
      MergeIntoKeys(Empty, a, k);
      MergeIntoKeys(Empty, b, k);
      KeysPermutation(a, b, k);
    }
    forall k | k in ma ensures ma[k] == mb[k] {
      MergeIntoGet(Empty, a, k);
      MergeIntoGet(Empty, b, k);
      SumOfPermutation(a, b, CountIn(k));
      assert Merged(a).Get(k) == Merged(b).Get(k);
    }
    MapsEqual(ma, mb);
  }
}
