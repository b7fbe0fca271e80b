/** The result tables: the rows whose parsed date equals a target day, projected to the
    order code and the customer name, in input order and renumbered from 0. */
module Selection {
  import opened Calendar
  import opened Table

  datatype OutputRow = OutputRow(orderCode: string, customerName: string)

  /** The boolean mask `delivery_status_date == target`: a NaT date equals no day. */
  predicate Matches(r: Record, target: int) {
    r.delivery == Stamp(Day(target))
  }

  function Project(r: Record): OutputRow {
    OutputRow(r.orderCode, r.customerName)
  }

  /** The positions from `i` on where the mask holds: every such position, only those,
      each once and in increasing order. */
  function MatchingFrom(rs: seq<Record>, target: int, i: nat): (idx: seq<nat>)
    requires i <= |rs|
    ensures forall k :: 0 <= k < |idx| ==> i <= idx[k] < |rs| && Matches(rs[idx[k]], target)
    ensures forall k, l :: 0 <= k < l < |idx| ==> idx[k] < idx[l]
    ensures forall j :: i <= j < |rs| && Matches(rs[j], target) ==> j in idx
    decreases |rs| - i
  {
    if i == |rs| then []
    else if Matches(rs[i], target) then [i] + MatchingFrom(rs, target, i + 1)
    else MatchingFrom(rs, target, i + 1)
  }

  function MatchingRows(rs: seq<Record>, target: int): seq<nat> {
    MatchingFrom(rs, target, 0)
  }

  /** `data.loc[mask, ["order_code", "customer_name"]]` from row `i` on, one row at a time. */
  function SelectFrom(rs: seq<Record>, target: int, i: nat): (sel: seq<OutputRow>)
    requires i <= |rs|
    ensures |sel| <= |rs| - i
    decreases |rs| - i
  {
    if i == |rs| then []
    else (if Matches(rs[i], target) then [Project(rs[i])] else []) + SelectFrom(rs, target, i + 1)
  }

  /** The result table for `target`, with its index reset to `0 .. n-1`. */
  function Select(rs: seq<Record>, target: int): (table: seq<OutputRow>)
    ensures |table| <= |rs|
  {
    SelectFrom(rs, target, 0)
  }

  lemma {:induction false} SelectFromIsMaskProjection(rs: seq<Record>, target: int, i: nat)
    requires i <= |rs|
    ensures |SelectFrom(rs, target, i)| == |MatchingFrom(rs, target, i)|
    ensures forall k :: 0 <= k < |SelectFrom(rs, target, i)| ==>
      SelectFrom(rs, target, i)[k] == Project(rs[MatchingFrom(rs, target, i)[k]])
    decreases |rs| - i
  {
    if i < |rs| {
      SelectFromIsMaskProjection(rs, target, i + 1);
      var sel, idx := SelectFrom(rs, target, i), MatchingFrom(rs, target, i);
      var tail, tailIdx := SelectFrom(rs, target, i + 1), MatchingFrom(rs, target, i + 1);
      if Matches(rs[i], target) {
        assert sel == [Project(rs[i])] + tail;
        assert idx == [i] + tailIdx;
        forall k | 0 <= k < |sel|
          ensures sel[k] == Project(rs[idx[k]])
        {
          if k > 0 {
            assert sel[k] == tail[k - 1] && idx[k] == tailIdx[k - 1];
          }
        }
      } else {
        assert sel == tail && idx == tailIdx;
      }
    }
  }

  /** Row `k` of the table is the projection of the `k`-th matching input row: nothing
      is added, dropped or reordered. */
  lemma SelectIsMaskProjection(rs: seq<Record>, target: int)
    ensures |Select(rs, target)| == |MatchingRows(rs, target)|
    ensures forall k :: 0 <= k < |Select(rs, target)| ==>
      Select(rs, target)[k] == Project(rs[MatchingRows(rs, target)[k]])
  {
    SelectFromIsMaskProjection(rs, target, 0);
  }

  /** The date column of a table. */
  function Dates(rs: seq<Record>): (ds: seq<DateCell>)
    ensures |ds| == |rs| && forall i :: 0 <= i < |rs| ==> ds[i] == rs[i].delivery
  {
    seq(|rs|, i requires 0 <= i < |rs| => rs[i].delivery)
  }

  lemma {:induction false} SelectFromCount(rs: seq<Record>, target: int, i: nat)
    requires i <= |rs|
    ensures |SelectFrom(rs, target, i)| == multiset(Dates(rs)[i..])[Stamp(Day(target))]
    decreases |rs| - i
  {
    if i < |rs| {
      SelectFromCount(rs, target, i + 1);
      assert Dates(rs)[i..] == [Dates(rs)[i]] + Dates(rs)[i + 1..];
    }
  }

  /** A table has as many rows as the date column has occurrences of its target day. */
  lemma SelectCount(rs: seq<Record>, target: int)
    ensures |Select(rs, target)| == multiset(Dates(rs))[Stamp(Day(target))]
  {
    SelectFromCount(rs, target, 0);
    assert Dates(rs)[0..] == Dates(rs);
  }

  lemma {:induction false} SelectFromNoMatch(rs: seq<Record>, target: int, i: nat)
    requires i <= |rs|
    requires forall j :: i <= j < |rs| ==> !Matches(rs[j], target)
    ensures SelectFrom(rs, target, i) == []
    decreases |rs| - i
  {
    if i < |rs| {
      SelectFromNoMatch(rs, target, i + 1);
    }
  }

  /** A day that no row has gives an empty table. */
  lemma SelectNoMatch(rs: seq<Record>, target: int)
    requires forall i :: 0 <= i < |rs| ==> !Matches(rs[i], target)
    ensures Select(rs, target) == []
  {
    SelectFromNoMatch(rs, target, 0);
  }

  /** A one-row table whose row has the day is that row, projected. */
  lemma SelectSingle(r: Record, target: int)
    requires Matches(r, target)
    ensures Select([r], target) == [Project(r)]
  {
    assert SelectFrom([r], target, 1) == [];
  }
}
