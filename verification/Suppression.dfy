/** Greedy suppression over any relation "`i` overlaps `j`" between candidates. */
module Suppression {
  type Relation = (nat, nat) -> bool

  // ----- a list shrinking from its head ---------------------------------------------------

  /** The entries of `rest` that box `i` does not suppress. */
  function Survivors(over: Relation, i: nat, rest: seq<nat>): (r: seq<nat>)
    ensures |r| <= |rest|
  {
    if rest == [] then []
    else
      var last := rest[|rest| - 1];
      Survivors(over, i, rest[..|rest| - 1]) + (if over(i, last) then [] else [last])
  }

  function Greedy(over: Relation, order: seq<nat>): seq<nat>
    decreases |order|
  {
    if order == [] then [] else [order[0]] + Greedy(over, Survivors(over, order[0], order[1..]))
  }

  method Suppress(over: Relation, sorted: seq<nat>) returns (keep: seq<nat>)
    ensures keep == Greedy(over, sorted)
  {
    keep := [];
    var order := sorted;
    while |order| > 0
      invariant keep + Greedy(over, order) == Greedy(over, sorted)
      decreases |order|
    {
      var i := order[0];
      keep := keep + [i];
      if |order| == 1 {
        assert Greedy(over, order) == [i];
        return;
      }
      order := Survivors(over, i, order[1..]);
    }
  }

  // ----- the same list, decided box by box ---------------------------------------------

  predicate Free(over: Relation, kept: seq<nat>, x: nat) {
    forall k :: 0 <= k < |kept| ==> !over(kept[k], x)
  }

  /** Each box in order is kept unless an already kept one overlaps it. */
  function Pass(over: Relation, order: seq<nat>): seq<nat> {
    if order == [] then []
    else
      var kept := Pass(over, order[..|order| - 1]);
      if Free(over, kept, order[|order| - 1]) then kept + [order[|order| - 1]] else kept
  }

  lemma {:induction false} GreedyOneMore(over: Relation, order: seq<nat>, x: nat)
    ensures Greedy(over, order + [x])
            == Greedy(over, order) + (if Free(over, Greedy(over, order), x) then [x] else [])
    decreases |order|
  {
    if order == [] {
      assert Survivors(over, x, []) == [];
      assert ([] + [x])[1..] == [];
    } else {
      var first, rest := order[0], order[1..];
      var more := order + [x];
      assert more[0] == first && more[1..] == rest + [x] && (rest + [x])[..|rest|] == rest;
      var left := Survivors(over, first, rest);
      var kept := Greedy(over, left);
      assert ([first] + kept)[0] == first;
      if over(first, x) {
        assert Survivors(over, first, rest + [x]) == left;
      } else {
        GreedyOneMore(over, left, x);
        assert Free(over, [first] + kept, x) <==> Free(over, kept, x) by {
          assert forall k :: 0 <= k < |kept| ==> ([first] + kept)[k + 1] == kept[k];
        }
      }
    }
  }

  /** The loop over a shrinking order keeps what the single pass keeps. */
  lemma {:induction false} GreedyIsPass(over: Relation, order: seq<nat>)
    ensures Greedy(over, order) == Pass(over, order)
  {
    if order != [] {
      var init, last := order[..|order| - 1], order[|order| - 1];
      GreedyIsPass(over, init);
      GreedyOneMore(over, init, last);
      assert order == init + [last];
    }
  }

  // ----- the unique answer ----------------------------------------------------------------

  /** A choice of positions: kept boxes do not overlap an earlier kept box, and every
      dropped box overlaps one. */
  ghost predicate IsNmsChoice(over: Relation, order: seq<nat>, mask: seq<bool>) {
    && |mask| == |order|
    && (forall p, q :: 0 <= q < p < |order| && mask[p] && mask[q] ==> !over(order[q], order[p]))
    && (forall p :: 0 <= p < |order| && !mask[p] ==>
          exists q :: 0 <= q < p && mask[q] && over(order[q], order[p]))
  }

  function Select(order: seq<nat>, mask: seq<bool>): seq<nat>
    requires |mask| == |order|
  {
    if order == [] then []
    else
      var n := |order| - 1;
      Select(order[..n], mask[..n]) + (if mask[n] then [order[n]] else [])
  }

  lemma {:induction false} Selected(order: seq<nat>, mask: seq<bool>, x: nat)
    requires |mask| == |order|
    ensures x in Select(order, mask) <==> exists q :: 0 <= q < |order| && mask[q] && order[q] == x
  {
    if order != [] {
      var n := |order| - 1;
      Selected(order[..n], mask[..n], x);
      assert (exists q :: 0 <= q < n && mask[..n][q] && order[..n][q] == x)
          == (exists q :: 0 <= q < n && mask[q] && order[q] == x);
    }
  }

  lemma ChoiceOfPrefix(over: Relation, order: seq<nat>, mask: seq<bool>, n: nat)
    requires IsNmsChoice(over, order, mask) && n <= |order|
    ensures IsNmsChoice(over, order[..n], mask[..n])
  {
    forall p | 0 <= p < n && !mask[..n][p]
      ensures exists q :: 0 <= q < p && mask[..n][q] && over(order[..n][q], order[..n][p])
    {
      var q :| 0 <= q < p && mask[q] && over(order[q], order[p]);
      assert mask[..n][q];
    }
  }

  /** Any such choice selects the list of the single pass. */
  lemma {:induction false} ChoiceIsPass(over: Relation, order: seq<nat>, mask: seq<bool>)
    requires IsNmsChoice(over, order, mask)
    ensures Select(order, mask) == Pass(over, order)
  {
    if order != [] {
      var n := |order| - 1;
      ChoiceOfPrefix(over, order, mask, n);
      ChoiceIsPass(over, order[..n], mask[..n]);
      FreeOfSelected(over, order, mask, n);
      LastOfChoice(over, order, mask, n);
    }
  }

  lemma LastOfChoice(over: Relation, order: seq<nat>, mask: seq<bool>, p: nat)
    requires IsNmsChoice(over, order, mask) && p < |order|
    ensures mask[p] <==> forall q :: 0 <= q < p && mask[q] ==> !over(order[q], order[p])
  {
  }

  lemma FreeOfSelected(over: Relation, order: seq<nat>, mask: seq<bool>, n: nat)
    requires |mask| == |order| && n < |order|
    ensures Free(over, Select(order[..n], mask[..n]), order[n]) <==>
            forall q :: 0 <= q < n && mask[q] ==> !over(order[q], order[n])
  {
    var kept := Select(order[..n], mask[..n]);
    if Free(over, kept, order[n]) {
      forall q | 0 <= q < n && mask[q] ensures !over(order[q], order[n]) {
        Selected(order[..n], mask[..n], order[q]);
        assert mask[..n][q] && order[..n][q] == order[q];
        var k :| 0 <= k < |kept| && kept[k] == order[q];
      }
    } else {
      var k :| 0 <= k < |kept| && over(kept[k], order[n]);
      Selected(order[..n], mask[..n], kept[k]);
      var q :| 0 <= q < |order[..n]| && mask[..n][q] && order[..n][q] == kept[k];
      assert mask[q] && order[q] == kept[k];
    }
  }

  lemma {:induction false} PassIsChoice(over: Relation, order: seq<nat>) returns (mask: seq<bool>)
    ensures IsNmsChoice(over, order, mask)
  {
    if order == [] {
      mask := [];
    } else {
      var n := |order| - 1;
      var before := PassIsChoice(over, order[..n]);
      mask := before + [forall q :: 0 <= q < n && before[q] ==> !over(order[q], order[n])];
      forall p | 0 <= p < |order| && !mask[p]
        ensures exists q :: 0 <= q < p && mask[q] && over(order[q], order[p])
      {
        if p < n {
          var q :| 0 <= q < p && before[q] && over(order[..n][q], order[..n][p]);
          assert mask[q] && order[q] == order[..n][q] && order[p] == order[..n][p];
        } else {
          var q :| 0 <= q < n && before[q] && over(order[q], order[n]);
          assert mask[q];
        }
      }
      forall p, q | 0 <= q < p < |order| && mask[p] && mask[q] ensures !over(order[q], order[p]) {
        if p < n {
          assert before[p] && before[q] && order[q] == order[..n][q] && order[p] == order[..n][p];
        } else {
          assert before[q];
        }
      }
    }
  }

  /** The list `nms` returns is the one and only list that a choice as above selects. */
  lemma NmsIsTheUniqueChoice(over: Relation, order: seq<nat>, keep: seq<nat>)
    ensures keep == Greedy(over, order) <==>
            exists mask :: IsNmsChoice(over, order, mask) && keep == Select(order, mask)
  {
    GreedyIsPass(over, order);
    var mask := PassIsChoice(over, order);
    ChoiceIsPass(over, order, mask);
    if other :| IsNmsChoice(over, order, other) && keep == Select(order, other) {
      ChoiceIsPass(over, order, other);
    }
  }

  // ----- properties of the kept list --------------------------------------------------------

  ghost predicate Symmetric(over: Relation) {
    forall i, j :: over(i, j) == over(j, i)
  }

  ghost predicate Apart(over: Relation, ks: seq<nat>) {
    forall a, b :: 0 <= a < b < |ks| ==> !over(ks[a], ks[b])
  }

  /** Kept boxes do not overlap one another. */
  lemma {:induction false} KeptApart(over: Relation, order: seq<nat>)
    ensures Apart(over, Pass(over, order))
  {
    if order != [] {
      KeptApart(over, order[..|order| - 1]);
    }
  }

  /** Running `nms` again on kept boxes, whatever order the scores put them in, keeps all. */
  lemma {:induction false} NmsIsIdempotent(over: Relation, order: seq<nat>, again: seq<nat>)
    requires Symmetric(over)
    requires forall a, b :: 0 <= a < b < |again| ==> again[a] != again[b]
    requires forall a :: 0 <= a < |again| ==> again[a] in Greedy(over, order)
    ensures Greedy(over, again) == again
  {
    GreedyIsPass(over, order);
    KeptApart(over, order);
    forall a, b | 0 <= a < b < |again| ensures !over(again[a], again[b]) {
      MembersApart(over, Pass(over, order), again[a], again[b]);
    }
    ApartAllKept(over, again);
    GreedyIsPass(over, again);
  }

  lemma MembersApart(over: Relation, ks: seq<nat>, x: nat, y: nat)
    requires Symmetric(over) && Apart(over, ks) && x in ks && y in ks && x != y
    ensures !over(x, y)
  {
    var i :| 0 <= i < |ks| && ks[i] == x;
    var j :| 0 <= j < |ks| && ks[j] == y;
  }

  lemma {:induction false} ApartAllKept(over: Relation, order: seq<nat>)
    requires Apart(over, order)
    ensures Pass(over, order) == order
  {
    if order != [] {
      ApartAllKept(over, order[..|order| - 1]);
    }
  }

  lemma {:induction false} KeptFromOrder(over: Relation, order: seq<nat>)
    ensures forall a :: 0 <= a < |Pass(over, order)| ==> Pass(over, order)[a] in order
  {
    if order != [] {
      KeptFromOrder(over, order[..|order| - 1]);
    }
  }

  ghost predicate HighToLow(scores: seq<real>, order: seq<nat>) {
    && (forall p :: 0 <= p < |order| ==> order[p] < |scores|)
    && (forall p, q :: 0 <= p < q < |order| ==> scores[order[p]] >= scores[order[q]])
  }

  /** Kept boxes come out from high to low. */
  lemma {:induction false} KeptHighToLow(over: Relation, scores: seq<real>, order: seq<nat>)
    requires HighToLow(scores, order)
    ensures HighToLow(scores, Pass(over, order))
  {
    if order != [] {
      var n := |order| - 1;
      KeptHighToLow(over, scores, order[..n]);
      KeptFromOrder(over, order[..n]);
      var kept := Pass(over, order[..n]);
      forall a | 0 <= a < |kept| ensures scores[kept[a]] >= scores[order[n]] {
        var p :| 0 <= p < n && order[..n][p] == kept[a];
      }
    }
  }

  /** `x` is overlapped by a listed box of no lower score. */
  ghost predicate SuppressedIn(over: Relation, scores: seq<real>, kept: seq<nat>, x: nat) {
    exists a :: 0 <= a < |kept| && kept[a] < |scores| && x < |scores|
                && over(kept[a], x) && scores[kept[a]] >= scores[x]
  }

  /** Every box in order is kept, or overlapped by a kept one of no lower score. */
  lemma {:induction false} KeptCover(over: Relation, scores: seq<real>, order: seq<nat>, p: nat)
    requires HighToLow(scores, order) && p < |order|
    ensures var kept := Pass(over, order);
            order[p] in kept || SuppressedIn(over, scores, kept, order[p])
  {
    var n := |order| - 1;
    var before, kept := Pass(over, order[..n]), Pass(over, order);
    assert before <= kept;
    if p < n {
      KeptCover(over, scores, order[..n], p);
      if SuppressedIn(over, scores, before, order[p]) {
        var a :| 0 <= a < |before| && before[a] < |scores| && order[p] < |scores|
                 && over(before[a], order[p]) && scores[before[a]] >= scores[order[p]];
        assert kept[a] == before[a];
      }
    } else if !Free(over, before, order[n]) {
      var a :| 0 <= a < |before| && over(before[a], order[n]);
      KeptFromOrder(over, order[..n]);
      var q :| 0 <= q < n && order[..n][q] == before[a];
      assert kept[a] == before[a];
    }
  }
}
