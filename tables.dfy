/**
  The token-count dictionaries of the pipeline (`defaultdict(int)` keyed by
  token). A Python dictionary iterates its keys in the order they were first
  inserted, and that order decides which random draw each singleton gets, so a
  table keeps its keys in insertion order next to the counts.
 */
module Tables {

  datatype Table = Table(order: seq<string>, count: map<string, nat>) {

    /** The keys are listed once each, and `order` lists exactly the keys of `count`. */
    predicate Valid() {
      && Distinct(order)
      && (forall k :: k in count ==> k in order)
      && (forall i :: 0 <= i < |order| ==> order[i] in count)
    }

    /** `table[k]` on a `defaultdict(int)`, without inserting the key. */
    function Get(k: string): nat {
      if k in count then count[k] else 0
    }

    /** `table[k] += v`: a missing key is inserted, at the end of the order. */
    function Inc(k: string, v: nat): (r: Table)
      ensures Valid() ==> r.Valid()
      ensures r.Get(k) == Get(k) + v
      ensures forall k' :: k' != k ==> r.Get(k') == Get(k')
      ensures r.count.Keys == count.Keys + {k}
      ensures k in count ==> r.order == order
      ensures k !in count ==> r.order == order + [k]
    {
      Table(if k in count then order else order + [k], count[k := Get(k) + v])
    }

    /** The sum of all counts. */
    function Total(): nat {
      SumOver(order, this)
    }
  }

  /** No key is listed twice. */
  predicate Distinct(keys: seq<string>) {
    forall i, j :: 0 <= i < j < |keys| ==> keys[i] != keys[j]
  }

  /** The empty `defaultdict(int)`. */
  const Empty: Table := Table([], map[])

  /** The sum of the counts of `keys` in `t`. */
  function SumOver(keys: seq<string>, t: Table): nat {
    if keys == [] then 0 else SumOver(keys[..|keys| - 1], t) + t.Get(keys[|keys| - 1])
  }

  /** Keys whose counts are the same in both tables sum to the same value. */
  lemma {:induction false} SumOverSame(keys: seq<string>, t1: Table, t2: Table)
    requires forall i :: 0 <= i < |keys| ==> t1.Get(keys[i]) == t2.Get(keys[i])
    ensures SumOver(keys, t1) == SumOver(keys, t2)
  {
    if keys != [] {
      SumOverSame(keys[..|keys| - 1], t1, t2);
    }
  }

  /** Raising the count of a key that is listed exactly once raises the sum by as much. */
  lemma {:induction false} SumOverBump(keys: seq<string>, t1: Table, t2: Table, k: string, v: nat)
    requires Distinct(keys)
    requires k in keys
    requires t2.Get(k) == t1.Get(k) + v
    requires forall k' :: k' != k ==> t2.Get(k') == t1.Get(k')
    ensures SumOver(keys, t2) == SumOver(keys, t1) + v
  {
    var init := keys[..|keys| - 1];
    if keys[|keys| - 1] == k {
      assert k !in init;
      SumOverSame(init, t1, t2);
    } else {
      assert k in init;
      SumOverBump(init, t1, t2, k, v);
    }
  }

  /** `table[k] += v` adds `v` to the sum of the counts. */
  lemma TotalInc(t: Table, k: string, v: nat)
    requires t.Valid()
    ensures t.Inc(k, v).Total() == t.Total() + v
  {
    var r := t.Inc(k, v);
    if k in t.count {
      SumOverBump(t.order, t, r, k, v);
    } else {
      assert r.order[..|r.order| - 1] == t.order;
      assert k !in t.order;
      SumOverSame(t.order, t, r);
    }
  }

  /** `t` after `t[token] += 1` for each of `tokens`, in order. */
  function CountInto(t: Table, tokens: seq<string>): Table
    decreases |tokens|
  {
    if tokens == [] then t else CountInto(t.Inc(tokens[0], 1), tokens[1..])
  }

  /** Counting two runs of tokens is counting the first, then the second. */
  lemma {:induction false} CountIntoAppend(t: Table, a: seq<string>, b: seq<string>)
    ensures CountInto(t, a + b) == CountInto(CountInto(t, a), b)
    decreases |a|
  {
    if a != [] {
      assert (a + b)[0] == a[0] && (a + b)[1..] == a[1..] + b;
      CountIntoAppend(t.Inc(a[0], 1), a[1..], b);
    } else {
      assert a + b == b;
    }
  }

  /** Counting the tokens up to `j`, then token `j`. */
  lemma CountIntoSnoc(t: Table, tokens: seq<string>, j: nat)
    requires j < |tokens|
    ensures CountInto(t, tokens[..j + 1]) == CountInto(t, tokens[..j]).Inc(tokens[j], 1)
  {
    assert tokens[..j + 1] == tokens[..j] + [tokens[j]];
    CountIntoAppend(t, tokens[..j], [tokens[j]]);
    assert CountInto(t, tokens[..j]).Inc(tokens[j], 1) == CountInto(CountInto(t, tokens[..j]).Inc(tokens[j], 1), []);
  }

  /** Counting keeps the keys listed once each. */
  lemma {:induction false} CountIntoValid(t: Table, tokens: seq<string>)
    requires t.Valid()
    ensures CountInto(t, tokens).Valid()
    decreases |tokens|
  {
    if tokens != [] {
      CountIntoValid(t.Inc(tokens[0], 1), tokens[1..]);
    }
  }

  /**
    Counting is exact: every token gets its number of occurrences added to its
    count, and the keys afterwards are the keys before plus the tokens seen.
   */
  lemma {:induction false} CountIntoCounts(t: Table, tokens: seq<string>)
    ensures forall k :: CountInto(t, tokens).Get(k) == t.Get(k) + multiset(tokens)[k]
    ensures forall k :: k in CountInto(t, tokens).count <==> k in t.count || k in tokens
    decreases |tokens|
  {
    if tokens != [] {
      CountIntoCounts(t.Inc(tokens[0], 1), tokens[1..]);
      assert tokens == [tokens[0]] + tokens[1..];
      assert multiset(tokens) == multiset{tokens[0]} + multiset(tokens[1..]);
    }
  }

  /** Counting adds the number of tokens to the sum of the counts. */
  lemma {:induction false} CountIntoTotal(t: Table, tokens: seq<string>)
    requires t.Valid()
    ensures CountInto(t, tokens).Total() == t.Total() + |tokens|
    decreases |tokens|
  {
    if tokens != [] {
      TotalInc(t, tokens[0], 1);
      CountIntoTotal(t.Inc(tokens[0], 1), tokens[1..]);
    }
  }

  /** The table that counting `tokens` from scratch produces. */
  function Tally(tokens: seq<string>): Table {
    CountInto(Empty, tokens)
  }

  /**
    A tally of a run of tokens lists each token seen once, gives it its number
    of occurrences, has no other key, and its counts sum to the number of
    tokens.
   */
  lemma TallyCounts(tokens: seq<string>)
    ensures Tally(tokens).Valid()
    ensures forall k :: Tally(tokens).Get(k) == multiset(tokens)[k]
    ensures forall k :: k in Tally(tokens).count <==> k in tokens
    ensures Tally(tokens).Total() == |tokens|
  {
    CountIntoValid(Empty, tokens);
    CountIntoCounts(Empty, tokens);
    CountIntoTotal(Empty, tokens);
  }
}
