/** The per-group false-positive-rate table of
    src/vdt_scoring/ethics/fairness_metrics.py. */
module Fairness {
  import opened Wrappers

  /** `set(groups)` */
  function Distinct(groups: seq<string>): set<string>
  {
    set g | g in groups
  }

  /** `[i for i, gg in enumerate(groups) if gg == g]`: the positions of g, ascending. */
  function Positions(groups: seq<string>, g: string): (r: seq<nat>)
    ensures forall k :: 0 <= k < |r| ==> r[k] < |groups| && groups[r[k]] == g
  {
    if groups == [] then []
    else
      var n := |groups| - 1;
      Positions(groups[..n], g) + (if groups[n] == g then [n] else [])
  }

  /** Every position of g is listed. */
  lemma {:induction false} PositionsComplete(groups: seq<string>, g: string, i: nat)
    requires i < |groups| && groups[i] == g
    ensures i in Positions(groups, g)
  {
    var n := |groups| - 1;
    if i < n {
      assert groups[..n][i] == g;
      PositionsComplete(groups[..n], g, i);
    }
  }

  predicate Ascending(r: seq<nat>)
  {
    forall a, b :: 0 <= a < b < |r| ==> r[a] < r[b]
  }

  /** Positions are listed in ascending order. */
  lemma {:induction false} PositionsAscending(groups: seq<string>, g: string)
    ensures Ascending(Positions(groups, g))
  {
    if groups != [] {
      var n := |groups| - 1;
      PositionsAscending(groups[..n], g);
      var p := Positions(groups[..n], g);
      var r := Positions(groups, g);
      assert r == p + (if groups[n] == g then [n] else []);
      forall a, b | 0 <= a < b < |r| ensures r[a] < r[b] {
        if b >= |p| {
          assert r[b] == n && r[a] == p[a] && p[a] < n;
        } else {
          assert r[a] == p[a] && r[b] == p[b];
        }
      }
    }
  }

  predicate Within(idxs: seq<nat>, n: nat)
  {
    forall k :: 0 <= k < |idxs| ==> idxs[k] < n
  }

  /** `zip([y_true[i] for i in idxs], [y_pred[i] for i in idxs])` */
  function Labels(yTrue: seq<int>, yPred: seq<int>, idxs: seq<nat>): (r: seq<(int, int)>)
    requires Within(idxs, |yTrue|) && Within(idxs, |yPred|)
    ensures |r| == |idxs|
  {
    seq(|idxs|, k requires 0 <= k < |idxs| => (yTrue[idxs[k]], yPred[idxs[k]]))
  }

  /** `sum(1 for t, p in pairs if t == truth and p == pred)` */
  function CountLabel(pairs: seq<(int, int)>, truth: int, pred: int): (c: nat)
    ensures c <= |pairs|
  {
    if pairs == [] then 0
    else CountLabel(pairs[..|pairs| - 1], truth, pred) + (if pairs[|pairs| - 1] == (truth, pred) then 1 else 0)
  }

  function FalsePositives(pairs: seq<(int, int)>): nat { CountLabel(pairs, 0, 1) }

  function TrueNegatives(pairs: seq<(int, int)>): nat { CountLabel(pairs, 0, 0) }

  /** `fp / max(1, fp + tn)` */
  function Rate(pairs: seq<(int, int)>): real
  {
    var fp, tn := FalsePositives(pairs), TrueNegatives(pairs);
    fp as real / (if fp + tn < 1 then 1 else fp + tn) as real
  }

  /** The false-positive rate over the positions of g. */
  function GroupRate(yTrue: seq<int>, yPred: seq<int>, groups: seq<string>, g: string): real
    requires |groups| <= |yTrue| && |groups| <= |yPred|
  {
    Rate(Labels(yTrue, yPred, Positions(groups, g)))
  }

  /** What `subgroup_false_positive_rates` returns or raises: an IndexError
      once some position of `groups` lies past `y_true` or `y_pred`. */
  function RatesSpec(yTrue: seq<int>, yPred: seq<int>, groups: seq<string>): Result<map<string, real>>
  {
    if |groups| <= |yTrue| && |groups| <= |yPred| then
      Ok(map g | g in Distinct(groups) :: GroupRate(yTrue, yPred, groups, g))
    else Err(IndexError)
  }

  /** `subgroup_false_positive_rates(y_true, y_pred, groups)`: the table is
      filled one distinct label at a time, in whatever order the set yields. */
  method SubgroupFalsePositiveRates(yTrue: seq<int>, yPred: seq<int>, groups: seq<string>)
    returns (r: Result<map<string, real>>)
    ensures r == RatesSpec(yTrue, yPred, groups)
  {
    var fprs: map<string, real> := map[];
    var remaining := Distinct(groups);
    while remaining != {}
      invariant remaining <= Distinct(groups)
      invariant fprs.Keys == Distinct(groups) - remaining
      invariant forall h :: h in fprs.Keys ==> RateEntry(yTrue, yPred, groups, h, fprs[h])
      decreases |remaining|
    {
      var g :| g in remaining;
      var idxs := Positions(groups, g);
      PositionsNonEmpty(groups, g);
      if idxs != [] {
        if !Within(idxs, |yTrue|) || !Within(idxs, |yPred|) {
          OutOfRange(yTrue, yPred, groups, g);
          return Err(IndexError);
        }
        var pairs := Labels(yTrue, yPred, idxs);
        var fp := FalsePositives(pairs);
        var tn := TrueNegatives(pairs);
        var rate := fp as real / (if fp + tn < 1 then 1 else fp + tn) as real;
        assert RateEntry(yTrue, yPred, groups, g, rate);
        fprs := fprs[g := rate];
      }
      remaining := remaining - {g};
    }
    InBounds(yTrue, yPred, groups, fprs);
    r := Ok(fprs);
  }

  /** The `continue` never fires: every label of `groups` occurs in it. */
  lemma PositionsNonEmpty(groups: seq<string>, g: string)
    requires g in Distinct(groups)
    ensures Positions(groups, g) != []
  {
    var i :| 0 <= i < |groups| && groups[i] == g;
    PositionsComplete(groups, g, i);
  }

  /** The loop's record for label h: its positions index both lists and v is their rate. */
  predicate RateEntry(yTrue: seq<int>, yPred: seq<int>, groups: seq<string>, h: string, v: real)
  {
    && Within(Positions(groups, h), |yTrue|) && Within(Positions(groups, h), |yPred|)
    && v == Rate(Labels(yTrue, yPred, Positions(groups, h)))
  }

  /** A table filled for every label is the specified one. */
  lemma InBounds(yTrue: seq<int>, yPred: seq<int>, groups: seq<string>, fprs: map<string, real>)
    requires fprs.Keys == Distinct(groups)
    requires forall h :: h in fprs.Keys ==> RateEntry(yTrue, yPred, groups, h, fprs[h])
    ensures RatesSpec(yTrue, yPred, groups) == Ok(fprs)
  {
    if |groups| > 0 {
      LastInBounds(yTrue, yPred, groups, fprs[groups[|groups| - 1]]);
    }
    var spec := map g | g in Distinct(groups) :: GroupRate(yTrue, yPred, groups, g);
    assert spec.Keys == fprs.Keys;
    forall h | h in fprs.Keys ensures fprs[h] == spec[h] {
      assert RateEntry(yTrue, yPred, groups, h, fprs[h]);
    }
    assert spec == fprs;
    assert RatesSpec(yTrue, yPred, groups) == Ok(spec);
  }

  lemma LastInBounds(yTrue: seq<int>, yPred: seq<int>, groups: seq<string>, v: real)
    requires |groups| > 0 && RateEntry(yTrue, yPred, groups, groups[|groups| - 1], v)
    ensures |groups| <= |yTrue| && |groups| <= |yPred|
  {
    var n := |groups| - 1;
    var ps := Positions(groups, groups[n]);
    PositionsComplete(groups, groups[n], n);
    var k :| 0 <= k < |ps| && ps[k] == n;
    assert Within(ps, |yTrue|) && Within(ps, |yPred|);
  }


  lemma OutOfRange(yTrue: seq<int>, yPred: seq<int>, groups: seq<string>, g: string)
    requires !Within(Positions(groups, g), |yTrue|) || !Within(Positions(groups, g), |yPred|)
    ensures RatesSpec(yTrue, yPred, groups) == Err(IndexError)
  {
  }
}

/** What the false-positive-rate table promises. */
module FairnessProperties {
  import opened Wrappers
  import opened Numerics
  import opened Fairness

  /** A rate is a fraction in [0, 1], fp/(fp+tn) whenever there is a negative
      to divide by, and 0 otherwise. */
  lemma RateBounds(pairs: seq<(int, int)>)
    ensures 0.0 <= Rate(pairs) <= 1.0
    ensures var fp, tn := FalsePositives(pairs), TrueNegatives(pairs);
      && (fp + tn > 0 ==> Rate(pairs) == fp as real / (fp + tn) as real)
      && (fp + tn == 0 ==> Rate(pairs) == 0.0)
  {
    var fp, tn := FalsePositives(pairs), TrueNegatives(pairs);
    if fp + tn > 0 {
      FractionInUnit(fp as real, (fp + tn) as real);
    }
  }

  /** The counts are a tally of the (truth, prediction) pairs. */
  lemma {:induction false} CountIsMultiplicity(pairs: seq<(int, int)>, truth: int, pred: int)
    ensures CountLabel(pairs, truth, pred) == multiset(pairs)[(truth, pred)]
  {
    if pairs != [] {
      var n := |pairs| - 1;
      CountIsMultiplicity(pairs[..n], truth, pred);
      assert pairs == pairs[..n] + [pairs[n]];
      assert multiset(pairs) == multiset(pairs[..n]) + multiset{pairs[n]};
    }
  }

  /** The table holds one rate per distinct label, each in [0, 1]; it is an
      IndexError exactly when `groups` is longer than either label list. */
  lemma RatesShape(yTrue: seq<int>, yPred: seq<int>, groups: seq<string>)
    ensures RatesSpec(yTrue, yPred, groups).Ok? <==> |groups| <= |yTrue| && |groups| <= |yPred|
    ensures RatesSpec(yTrue, yPred, groups).Err? ==> RatesSpec(yTrue, yPred, groups).error == IndexError
    ensures RatesSpec(yTrue, yPred, groups).Ok? ==>
      var fprs := RatesSpec(yTrue, yPred, groups).value;
      && fprs.Keys == (set g | g in groups)
      && forall g :: g in fprs.Keys ==> 0.0 <= fprs[g] <= 1.0
  {
    if |groups| <= |yTrue| && |groups| <= |yPred| {
      var fprs := RatesSpec(yTrue, yPred, groups).value;
      forall g | g in fprs.Keys ensures 0.0 <= fprs[g] <= 1.0 {
        RateBounds(Labels(yTrue, yPred, Positions(groups, g)));
      }
    }
  }

  lemma {:induction false} CountAbsent(pairs: seq<(int, int)>, truth: int, pred: int)
    requires forall k :: 0 <= k < |pairs| ==> pairs[k].0 != truth
    ensures CountLabel(pairs, truth, pred) == 0
  {
    if pairs != [] {
      CountAbsent(pairs[..|pairs| - 1], truth, pred);
    }
  }

  /** A group without a single y_true == 0 entry has rate 0: the
      denominator falls back to max(1, 0). */
  lemma NoNegativesRateZero(yTrue: seq<int>, yPred: seq<int>, groups: seq<string>, g: string)
    requires |groups| <= |yTrue| && |groups| <= |yPred|
    requires forall i :: 0 <= i < |groups| && groups[i] == g ==> yTrue[i] != 0
    ensures GroupRate(yTrue, yPred, groups, g) == 0.0
  {
    var pairs := Labels(yTrue, yPred, Positions(groups, g));
    CountAbsent(pairs, 0, 1);
    CountAbsent(pairs, 0, 0);
  }

  lemma {:induction false} PositionsAgree(gr1: seq<string>, gr2: seq<string>, g: string)
    requires |gr1| == |gr2|
    requires forall i :: 0 <= i < |gr1| ==> (gr1[i] == g <==> gr2[i] == g)
    ensures Positions(gr1, g) == Positions(gr2, g)
  {
    if gr1 != [] {
      var n := |gr1| - 1;
      PositionsAgree(gr1[..n], gr2[..n], g);
    }
  }

  /** The rate for g reads only the positions labelled g: two inputs that
      agree there give g the same rate. */
  lemma RateIsLocal(yT1: seq<int>, yP1: seq<int>, gr1: seq<string>,
                    yT2: seq<int>, yP2: seq<int>, gr2: seq<string>, g: string)
    requires |gr1| <= |yT1| && |gr1| <= |yP1| && |gr2| <= |yT2| && |gr2| <= |yP2|
    requires |gr1| == |gr2|
    requires forall i :: 0 <= i < |gr1| ==> (gr1[i] == g <==> gr2[i] == g)
    requires forall i :: 0 <= i < |gr1| && gr1[i] == g ==> yT1[i] == yT2[i] && yP1[i] == yP2[i]
    ensures GroupRate(yT1, yP1, gr1, g) == GroupRate(yT2, yP2, gr2, g)
  {
    PositionsAgree(gr1, gr2, g);
    var ps := Positions(gr1, g);
    assert Labels(yT1, yP1, ps) == Labels(yT2, yP2, ps);
  }

  lemma ExamplePositions()
    ensures Positions(["a", "a", "b", "b"], "a") == [0, 1]
    ensures Positions(["a", "a", "b", "b"], "b") == [2, 3]
  {
    var gr := ["a", "a", "b", "b"];
    assert gr[..1][..0] == [] && gr[..2][..1] == gr[..1] && gr[..3][..2] == gr[..2] && gr[..3] == gr[..|gr| - 1];
    assert Positions(gr[..1], "a") == [0] && Positions(gr[..1], "b") == [];
    assert Positions(gr[..2], "a") == [0, 1] && Positions(gr[..2], "b") == [];
    assert Positions(gr[..3], "a") == [0, 1] && Positions(gr[..3], "b") == [2];
  }

  /** Group "a" holds one false positive and one true negative. */
  lemma ExampleRateA()
    ensures GroupRate([0, 0, 1, 0], [1, 0, 1, 1], ["a", "a", "b", "b"], "a") == 0.5
  {
    ExamplePositions();
    var pa: seq<(int, int)> := [(0, 1), (0, 0)];
    assert Labels([0, 0, 1, 0], [1, 0, 1, 1], [0, 1]) == pa;
    assert pa[..1] == [(0, 1)] && |pa[..1][..0]| == 0;
    assert FalsePositives(pa) == 1 && TrueNegatives(pa) == 1;
  }

  /** Group "b" holds one negative, predicted positive. */
  lemma ExampleRateB()
    ensures GroupRate([0, 0, 1, 0], [1, 0, 1, 1], ["a", "a", "b", "b"], "b") == 1.0
  {
    ExamplePositions();
    var pb: seq<(int, int)> := [(1, 1), (0, 1)];
    assert Labels([0, 0, 1, 0], [1, 0, 1, 1], [2, 3]) == pb;
    assert pb[..1] == [(1, 1)] && |pb[..1][..0]| == 0;
    assert FalsePositives(pb) == 1 && TrueNegatives(pb) == 0;
  }

  /** Two groups: "a" has one false positive and one true negative, "b" has
      one negative, predicted positive. */
  lemma RatesExample(yT: seq<int>, yP: seq<int>, gr: seq<string>)
    requires yT == [0, 0, 1, 0] && yP == [1, 0, 1, 1] && gr == ["a", "a", "b", "b"]
    ensures RatesSpec(yT, yP, gr).Ok?
    ensures RatesSpec(yT, yP, gr).value.Keys == {"a", "b"}
    ensures RatesSpec(yT, yP, gr).value["a"] == 0.5 && RatesSpec(yT, yP, gr).value["b"] == 1.0
  {
    ExampleRateA();
    ExampleRateB();
    ExampleGroups(gr);
  }

  lemma ExampleGroups(gr: seq<string>)
    requires gr == ["a", "a", "b", "b"]
    ensures Distinct(gr) == {"a", "b"}
  {
    assert gr[0] == "a" && gr[2] == "b";
  }

  lemma ShortLabelsExample()
    ensures RatesSpec([0], [1], ["a", "b"]) == Err(IndexError)
  {
  }
}
