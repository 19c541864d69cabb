/** The order contract: a candidate keeps the baseline's outer ORDER BY as a prefix of its own. */
module OrderContract {
  import opened Wrappers

  /** A sort expression and its direction. */
  datatype Key = Key(expression: string, descending: bool)

  type Keys = seq<Key>

  datatype Reason = Removed | NotAPrefix

  /** ordinal counts result sets from one. */
  datatype Risk = Risk(ordinal: nat, reason: Reason)

  predicate Kept(baseline: Option<Keys>, candidate: Option<Keys>) {
    baseline.Some? ==> candidate.Some? && baseline.value <= candidate.value
  }

  /** The candidate's order of a result set; there may be fewer of them. */
  function OrderAt(orders: seq<Option<Keys>>, i: nat): Option<Keys> { if i < |orders| then orders[i] else None }

  /** The first result set whose order is weakened, with the reason. */
  method OrderContractRisk(baseline: seq<Option<Keys>>, candidate: seq<Option<Keys>>) returns (risk: Option<Risk>)
    ensures risk.None? <==> forall i :: 0 <= i < |baseline| ==> Kept(baseline[i], OrderAt(candidate, i))
    ensures risk.Some? ==>
              var i := risk.value.ordinal - 1;
              && 0 <= i < |baseline| && !Kept(baseline[i], OrderAt(candidate, i))
              && (forall k :: 0 <= k < i ==> Kept(baseline[k], OrderAt(candidate, k)))
              && (risk.value.reason == Removed <==> OrderAt(candidate, i).None?)
  {
    var ordinal := 1;
    while ordinal <= |baseline|
      invariant 1 <= ordinal <= |baseline| + 1
      invariant forall i :: 0 <= i < ordinal - 1 ==> Kept(baseline[i], OrderAt(candidate, i))
    {
      var keys := baseline[ordinal - 1];
      if keys.Some? {
        var own := if ordinal <= |candidate| then candidate[ordinal - 1] else None;
        assert own == OrderAt(candidate, ordinal - 1);
        if own.None? {
          return Some(Risk(ordinal, Removed));
        }
        var length := if |keys.value| < |own.value| then |keys.value| else |own.value|;
        if own.value[..length] != keys.value {
          assert !(keys.value <= own.value);
          return Some(Risk(ordinal, NotAPrefix));
        }
      }
      ordinal := ordinal + 1;
    }
    return None;
  }

  // ---------------------------------------------------------------- what an order means

  /** Whether, by the expression, the first row may come before the second: any relation per expression. */
  type Order<!Row> = (string, Row, Row) -> bool

  ghost predicate TotalPreorder<Row(!new)>(le: Order<Row>) {
    && (forall e, x, y :: le(e, x, y) || le(e, y, x))
    && forall e, x, y, z :: le(e, x, y) && le(e, y, z) ==> le(e, x, z)
  }

  predicate May<Row>(le: Order<Row>, key: Key, x: Row, y: Row) {
    if key.descending then le(key.expression, y, x) else le(key.expression, x, y)
  }

  /** x may come before y in a result sorted by the keys. */
  predicate Before<Row>(le: Order<Row>, keys: Keys, x: Row, y: Row) {
    keys == [] || (May(le, keys[0], x, y) && (May(le, keys[0], y, x) ==> Before(le, keys[1..], x, y)))
  }

  predicate Sorted<Row>(le: Order<Row>, keys: Keys, rows: seq<Row>) {
    forall i, j :: 0 <= i < j < |rows| ==> Before(le, keys, rows[i], rows[j])
  }

  lemma {:induction false} PrefixBefore<Row>(le: Order<Row>, baseline: Keys, candidate: Keys, x: Row, y: Row)
    requires baseline <= candidate && Before(le, candidate, x, y)
    ensures Before(le, baseline, x, y)
  {
    if baseline != [] {
      assert baseline[0] == candidate[0];
      if May(le, baseline[0], y, x) {
        PrefixBefore(le, baseline[1..], candidate[1..], x, y);
      }
    }
  }

  /** Rows in the candidate's order are in the baseline's order. */
  lemma KeptOrderIsSorted<Row>(le: Order<Row>, baseline: Keys, candidate: Keys, rows: seq<Row>)
    requires Kept(Some(baseline), Some(candidate)) && Sorted(le, candidate, rows)
    ensures Sorted(le, baseline, rows)
  {
    forall i, j | 0 <= i < j < |rows| ensures Before(le, baseline, rows[i], rows[j]) {
      PrefixBefore(le, baseline, candidate, rows[i], rows[j]);
    }
  }

  // ---------------------------------------------------------------- and nothing less will do

  /** No expression twice; T-SQL refuses an ORDER BY that repeats one. */
  predicate Distinct(keys: Keys) {
    forall i, j :: 0 <= i < j < |keys| ==> keys[i].expression != keys[j].expression
  }

  /** Two rows: equal in every expression except one, which is in the row's favour, and another one. */
  function Ranked(first: map<string, int>, second: map<string, int>, e: string, row: bool): int {
    var ranks := if row then second else first;
    if e in ranks then ranks[e] else 0
  }

  function ByRank(first: map<string, int>, second: map<string, int>): Order<bool> {
    (e: string, x: bool, y: bool) => Ranked(first, second, e, x) <= Ranked(first, second, e, y)
  }

  lemma ByRankIsTotal(first: map<string, int>, second: map<string, int>)
    ensures TotalPreorder(ByRank(first, second))
  {
  }

  /** The first key at which the candidate leaves the baseline. */
  function Departure(baseline: Keys, candidate: Keys): (k: nat)
    requires !(baseline <= candidate)
    ensures k < |baseline| && k <= |candidate| && baseline[..k] == candidate[..k]
    ensures k < |candidate| ==> baseline[k] != candidate[k]
  {
    if candidate == [] || baseline[0] != candidate[0] then 0
    else
      var rest := Departure(baseline[1..], candidate[1..]);
      assert baseline[..rest + 1] == [baseline[0]] + baseline[1..][..rest];
      assert candidate[..rest + 1] == [candidate[0]] + candidate[1..][..rest];
      rest + 1
  }

  predicate TiedBy<Row>(le: Order<Row>, key: Key, x: Row, y: Row) { May(le, key, x, y) && May(le, key, y, x) }

  /** Keys on which two rows tie decide nothing. */
  lemma {:induction false} TiesPass<Row>(le: Order<Row>, keys: Keys, k: nat, x: Row, y: Row)
    requires k <= |keys| && forall i :: 0 <= i < k ==> TiedBy(le, keys[i], x, y)
    ensures Before(le, keys, x, y) == Before(le, keys[k..], x, y)
  {
    if k == 0 {
      assert keys[0..] == keys;
    } else {
      assert TiedBy(le, keys[0], x, y);
      assert keys[1..][k - 1..] == keys[k..];
      forall i | 0 <= i < k - 1 ensures TiedBy(le, keys[1..][i], x, y) {
        assert keys[1..][i] == keys[i + 1];
      }
      TiesPass(le, keys[1..], k - 1, x, y);
    }
  }

  /** The rank that puts the row `true` against the key, and the row `false` with it. */
  function Against(key: Key): int { if key.descending then -1 else 1 }

  /** An order by which the rows true, false are sorted for the candidate and not for the baseline. */
  function Witness(baseline: Keys, candidate: Keys): Order<bool>
    requires !(baseline <= candidate)
  {
    var k := Departure(baseline, candidate);
    var ranks := map[baseline[k].expression := Against(baseline[k])];
    ByRank(map[], if k < |candidate| then ranks[candidate[k].expression := Rank(baseline[k], candidate[k])] else ranks)
  }

  /** A rank against the baseline's key that is with the candidate's. */
  function Rank(baseline: Key, candidate: Key): int {
    if candidate.expression == baseline.expression then Against(baseline) else -Against(candidate)
  }

  lemma WitnessViolatesBaseline(baseline: Keys, candidate: Keys)
    requires !(baseline <= candidate) && Distinct(baseline) && Distinct(candidate)
    ensures var le := Witness(baseline, candidate);
            !Before(le, baseline, true, false) && Before(le, candidate, true, false)
  {
    var le, k := Witness(baseline, candidate), Departure(baseline, candidate);
    forall i | 0 <= i < k ensures TiedBy(le, baseline[i], true, false) && TiedBy(le, candidate[i], true, false) {
      assert baseline[i] == baseline[..k][i] == candidate[..k][i] == candidate[i];
    }
    TiesPass(le, baseline, k, true, false);
    TiesPass(le, candidate, k, true, false);
    assert !May(le, baseline[k], true, false);
    if k < |candidate| {
      assert May(le, candidate[k], true, false) && !May(le, candidate[k], false, true);
    }
  }

  /** For orders without repeated expressions the contract is exact: the candidate's keys start with
      the baseline's exactly when every result in the candidate's order is in the baseline's. */
  lemma ContractIsExact(baseline: Keys, candidate: Keys)
    requires Distinct(baseline) && Distinct(candidate)
    ensures Kept(Some(baseline), Some(candidate)) <==>
              forall le: Order<bool>, rows: seq<bool> :: TotalPreorder(le) && Sorted(le, candidate, rows) ==>
                  Sorted(le, baseline, rows)
  {
    if baseline <= candidate {
      forall le: Order<bool>, rows: seq<bool> | TotalPreorder(le) && Sorted(le, candidate, rows)
        ensures Sorted(le, baseline, rows) {
        KeptOrderIsSorted(le, baseline, candidate, rows);
      }
    } else {
      var le, rows := Witness(baseline, candidate), [true, false];
      WitnessViolatesBaseline(baseline, candidate);
      ByRankIsTotal(map[], map[]);
      assert TotalPreorder(le);
      assert Sorted(le, candidate, rows);
      assert !Before(le, baseline, rows[0], rows[1]);
    }
  }

  /** A candidate without an order promises none: any rows will do, also unsorted ones. */
  lemma NoOrderKeepsNothing(baseline: Keys)
    requires baseline != []
    ensures exists le: Order<bool>, rows: seq<bool> ::
            TotalPreorder(le) && Sorted(le, [], rows) && !Sorted(le, baseline, rows)
  {
    var le, rows := ByRank(map[], map[baseline[0].expression := Against(baseline[0])]), [true, false];
    ByRankIsTotal(map[], map[baseline[0].expression := Against(baseline[0])]);
    assert Sorted(le, [], rows);
    assert !May(le, baseline[0], rows[0], rows[1]);
  }
}
