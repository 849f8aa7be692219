/**
  The singleton selection of `prep_w2v`: every token counted exactly once
  over the whole corpus, and holding no digit, is a singleton; each singleton
  is also put in the sample when its random draw falls below
  `ratio_unknown`.

  `random.random()` is not modelled as ambient state: the caller passes the
  stream of draws, and the n-th singleton met (in the iteration order of
  `all_tokens`) receives draw n.
 */
module Sampling {
  import opened Text
  import opened Tables

  /** The test of the singleton loop: counted once, and no digit. */
  predicate IsSingleton(t: Table, k: string) {
    t.Get(k) == 1 && !HasDigit(k)
  }

  /** `singletons_all`, defined directly: the keys counted once that hold no digit. */
  function SingletonSet(t: Table): set<string> {
    set k | k in t.count && t.count[k] == 1 && !HasDigit(k)
  }

  /** `[k]` when `k` passes the singleton test, nothing otherwise. */
  function Kept(t: Table, k: string): seq<string> {
    if IsSingleton(t, k) then [k] else []
  }

  /** The singletons among `keys`, in the order the loop meets them. */
  function Qualifying(keys: seq<string>, t: Table): seq<string> {
    if keys == [] then [] else Qualifying(keys[..|keys| - 1], t) + Kept(t, keys[|keys| - 1])
  }

  /** The singletons of `q` whose draw (draw `i` for the `i`-th) is below `ratio`. */
  function Sampled(q: seq<string>, draws: nat -> real, ratio: real): set<string> {
    set i | 0 <= i < |q| && draws(i) < ratio :: q[i]
  }

  /**
    The singleton loop of `prep_w2v`: walks `all_tokens` in its order, keeps
    every key counted once with no digit, and draws a number for each of
    those (and only those) to decide whether it also goes into the sample.
   */
  method SelectSingletons(allTokens: Table, ratioUnknown: real, draws: nat -> real)
    returns (singletonsAll: set<string>, singletonsSample: set<string>)
    requires allTokens.Valid()
    ensures singletonsAll == SingletonSet(allTokens)
    ensures singletonsSample == Sampled(Qualifying(allTokens.order, allTokens), draws, ratioUnknown)
    ensures singletonsSample <= singletonsAll
  {
    var order := allTokens.order;
    singletonsAll, singletonsSample := {}, {};
    var drawn := 0;
    for i := 0 to |order|
      invariant drawn == |Qualifying(order[..i], allTokens)|
      invariant singletonsAll == Members(Qualifying(order[..i], allTokens))
      invariant singletonsSample == Sampled(Qualifying(order[..i], allTokens), draws, ratioUnknown)
    {
      var k, v := order[i], allTokens.count[order[i]];
      ghost var q := Qualifying(order[..i], allTokens);
      QualifyingSnoc(order, i, allTokens);
      if v == 1 && !HasDigit(k) {
        SampledSnoc(q, k, draws, ratioUnknown);
        MembersSnoc(q, k);
        singletonsAll := singletonsAll + {k};
        if draws(drawn) < ratioUnknown {
          singletonsSample := singletonsSample + {k};
        }
        drawn := drawn + 1;
      }
    }
    assert order[..|order|] == order;
    QualifyingIsSingletonSet(allTokens);
    SampledWithin(Qualifying(order, allTokens), draws, ratioUnknown);
  }

  /** The keys listed in `q`. */
  function Members(q: seq<string>): set<string> {
    set x | x in q
  }

  /** Listing one more key adds it to the keys listed. */
  lemma MembersSnoc(q: seq<string>, k: string)
    ensures Members(q + [k]) == Members(q) + {k}
  {
    assert forall x :: x in q + [k] <==> x in q || x == k;
  }

  /** The singletons met up to key `i`: those met before it, then key `i` if it passes the test. */
  lemma QualifyingSnoc(keys: seq<string>, i: nat, t: Table)
    requires i < |keys|
    ensures Qualifying(keys[..i + 1], t) == Qualifying(keys[..i], t) + Kept(t, keys[i])
    ensures !IsSingleton(t, keys[i]) ==> Qualifying(keys[..i + 1], t) == Qualifying(keys[..i], t)
  {
    assert keys[..i + 1][..i] == keys[..i] && keys[..i + 1][i] == keys[i];
    assert Qualifying(keys[..i], t) + [] == Qualifying(keys[..i], t);
  }

  /** One more singleton adds it to the sample exactly when its draw is below the ratio. */
  lemma SampledSnoc(q: seq<string>, k: string, draws: nat -> real, ratio: real)
    ensures Sampled(q + [k], draws, ratio) == Sampled(q, draws, ratio) + (if draws(|q|) < ratio then {k} else {})
  {
    var q' := q + [k];
    forall x ensures x in Sampled(q', draws, ratio) <==> x in Sampled(q, draws, ratio) || (x == k && draws(|q|) < ratio) {
      if x in Sampled(q', draws, ratio) {
        var i :| 0 <= i < |q'| && draws(i) < ratio && q'[i] == x;
        if i < |q| {
          assert q[i] == x;
        }
      }
      if x in Sampled(q, draws, ratio) {
        var i :| 0 <= i < |q| && draws(i) < ratio && q[i] == x;
        assert q'[i] == x;
      }
      if x == k && draws(|q|) < ratio {
        assert q'[|q|] == k;
      }
    }
  }

  /** Every key of a sample was among the candidates. */
  lemma SampledWithin(q: seq<string>, draws: nat -> real, ratio: real)
    ensures Sampled(q, draws, ratio) <= Members(q)
  {
  }

  /** The singletons met along `keys` are exactly the keys of `keys` that pass the test. */
  lemma {:induction false} QualifyingElems(keys: seq<string>, t: Table, x: string)
    ensures x in Qualifying(keys, t) <==> x in keys && IsSingleton(t, x)
    decreases |keys|
  {
    if keys != [] {
      var init, last := keys[..|keys| - 1], keys[|keys| - 1];
      QualifyingElems(init, t, x);
      assert keys == init + [last];
    }
  }

  /** The singletons met along the whole order of a table are `SingletonSet`. */
  lemma QualifyingIsSingletonSet(t: Table)
    requires t.Valid()
    ensures Members(Qualifying(t.order, t)) == SingletonSet(t)
  {
    forall x ensures x in Qualifying(t.order, t) <==> x in SingletonSet(t) {
      QualifyingElems(t.order, t, x);
    }
  }

  /** The singletons are listed once each, in the order of the table. */
  lemma {:induction false} QualifyingDistinct(keys: seq<string>, t: Table)
    requires Distinct(keys)
    ensures Distinct(Qualifying(keys, t))
    decreases |keys|
  {
    if keys != [] {
      var init, last := keys[..|keys| - 1], keys[|keys| - 1];
      assert Distinct(init);
      QualifyingDistinct(init, t);
      var q := Qualifying(init, t);
      if IsSingleton(t, last) {
        QualifyingElems(init, t, last);
        assert last !in init;
        forall i, j | 0 <= i < j < |q + [last]| ensures (q + [last])[i] != (q + [last])[j] {
          if j == |q| {
            assert (q + [last])[i] == q[i] && q[i] in q;
          }
        }
      } else {
        assert q + [] == q;
      }
    }
  }

  /**
    The draws of `random.random()` lie in [0, 1). So with `ratio_unknown <= 0`
    no singleton is sampled, and with `ratio_unknown >= 1` all of them are.
   */
  lemma SampleExtremes(t: Table, draws: nat -> real, ratio: real)
    requires t.Valid()
    requires forall i :: 0.0 <= draws(i) < 1.0
    ensures ratio <= 0.0 ==> Sampled(Qualifying(t.order, t), draws, ratio) == {}
    ensures ratio >= 1.0 ==> Sampled(Qualifying(t.order, t), draws, ratio) == SingletonSet(t)
  {
    var q := Qualifying(t.order, t);
    QualifyingIsSingletonSet(t);
    if ratio >= 1.0 {
      forall x | x in q ensures x in Sampled(q, draws, ratio) {
        var i :| 0 <= i < |q| && q[i] == x;
        assert draws(i) < ratio;
      }
    }
  }

  /**
    A token holding a digit is never a singleton, so with digit folding no
    token made of a digit-bearing raw token (such as "0" from "7") is ever
    replaced.
   */
  lemma DigitTokenNeverSingleton(t: Table, raw: string, lowercase: bool, replaceDigits: bool)
    requires HasDigit(raw)
    ensures Normalise(raw, lowercase, replaceDigits) !in SingletonSet(t)
  {
    NormalisePreservesHasDigit(raw, lowercase, replaceDigits);
  }
}
