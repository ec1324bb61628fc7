/** Rows in stored order: finding the first of some, and keeping only the newest, as tables are trimmed. */
module Newest {

  /** The place of the first row from `from` on that `p` picks, or the length if there is none. */
  function FirstWhere<T(!new)>(rows: seq<T>, p: T -> bool, from: nat): (i: nat)
    requires from <= |rows|
    ensures from <= i <= |rows| && (i < |rows| ==> p(rows[i]))
    ensures forall k | from <= k < i :: !p(rows[k])
    decreases |rows| - from
  {
    if from == |rows| || p(rows[from]) then from else FirstWhere(rows, p, from + 1)
  }

  /** The place of the first row under this id, or the length if there is none. */
  function PlaceOf<T(!new)>(rows: seq<T>, idOf: T -> string, id: string): (i: nat)
    ensures i <= |rows| && (i < |rows| ==> idOf(rows[i]) == id)
    ensures forall k | 0 <= k < i :: idOf(rows[k]) != id
  {
    FirstWhere(rows, (row: T) => idOf(row) == id, 0)
  }

  function CountOf<T(!new)>(rows: seq<T>, p: T -> bool): (n: nat)
    ensures n <= |rows|
  {
    if rows == [] then 0
    else CountOf(rows[..|rows| - 1], p) + if p(rows[|rows| - 1]) then 1 else 0
  }

  /** With rows oldest first: of those that `p` picks only the newest `keep` stay. */
  function KeepNewest<T(!new)>(rows: seq<T>, p: T -> bool, keep: nat): seq<T>
    decreases |rows|
  {
    if rows == [] then []
    else
      var older, last := rows[..|rows| - 1], rows[|rows| - 1];
      if !p(last) then KeepNewest(older, p, keep) + [last]
      else if keep == 0 then KeepNewest(older, p, 0)
      else KeepNewest(older, p, keep - 1) + [last]
  }

  /** The rows that stay, in order: `at` gives the place each had. */
  ghost predicate Subsequence<T(!new)>(sub: seq<T>, rows: seq<T>, at: seq<nat>) {
    && |at| == |sub|
    && (forall k | 0 <= k < |sub| :: at[k] < |rows| && rows[at[k]] == sub[k])
    && (forall k, l | 0 <= k < l < |sub| :: at[k] < at[l])
  }

  ghost predicate Distinct<T(!new)>(rows: seq<T>) {
    forall k, l | 0 <= k < l < |rows| :: rows[k] != rows[l]
  }

  /** Row `i` stays: it is not picked, or fewer than `keep` of those picked are newer. */
  ghost predicate Stays<T(!new)>(rows: seq<T>, p: T -> bool, keep: nat, i: nat)
    requires i < |rows|
  {
    !p(rows[i]) || CountOf(rows[i + 1..], p) < keep
  }

  lemma SubsequenceOneMore<T(!new)>(sub: seq<T>, rows: seq<T>, at: seq<nat>, last: T)
    requires Subsequence(sub, rows, at)
    ensures Subsequence(sub, rows + [last], at)
    ensures Subsequence(sub + [last], rows + [last], at + [|rows|])
  {
  }

  lemma {:induction false} IsSubsequence<T(!new)>(rows: seq<T>, p: T -> bool, keep: nat) returns (at: seq<nat>)
    ensures Subsequence(KeepNewest(rows, p, keep), rows, at)
    decreases |rows|
  {
    if rows == [] {
      return [];
    }
    var older, last := rows[..|rows| - 1], rows[|rows| - 1];
    var left := if p(last) && keep > 0 then keep - 1 else keep;
    at := IsSubsequence(older, p, left);
    SubsequenceOneMore(KeepNewest(older, p, left), older, at, last);
    assert older + [last] == rows;
    at := if p(last) && keep == 0 then at else at + [|older|];
  }

  lemma CountOfNewer<T(!new)>(rows: seq<T>, p: T -> bool, i: nat)
    requires i + 1 < |rows|
    ensures
      CountOf(rows[i + 1..], p) == CountOf(rows[..|rows| - 1][i + 1..], p) + if p(rows[|rows| - 1]) then 1 else 0
  {
    var newer := rows[i + 1..];
    assert newer[..|newer| - 1] == rows[..|rows| - 1][i + 1..];
  }

  /** Exactly the rows not picked, and the newest `keep` of the others, stay. */
  lemma {:induction false} KeepsIff<T(!new)>(rows: seq<T>, p: T -> bool, keep: nat, i: nat)
    requires i < |rows| && Distinct(rows)
    ensures rows[i] in KeepNewest(rows, p, keep) <==> Stays(rows, p, keep, i)
    decreases |rows|
  {
    var older, last := rows[..|rows| - 1], rows[|rows| - 1];
    var left := if p(last) && keep > 0 then keep - 1 else keep;
    var at := IsSubsequence(older, p, left);
    if i == |rows| - 1 {
      assert rows[i + 1..] == [];
      forall k | 0 <= k < |at| ensures KeepNewest(older, p, left)[k] != last {
        assert older[at[k]] == rows[at[k]];
      }
    } else {
      assert older[i] == rows[i];
      KeepsIff(older, p, left, i);
      CountOfNewer(rows, p, i);
    }
  }

  /** No more than `keep` of those picked: all rows stay. */
  lemma {:induction false} KeepsAll<T(!new)>(rows: seq<T>, p: T -> bool, keep: nat)
    requires CountOf(rows, p) <= keep
    ensures KeepNewest(rows, p, keep) == rows
    decreases |rows|
  {
    if rows != [] {
      var older, last := rows[..|rows| - 1], rows[|rows| - 1];
      KeepsAll(older, p, if p(last) then keep - 1 else keep);
      assert older + [last] == rows;
    }
  }

  lemma {:induction false} CountZeroIff<T(!new)>(rows: seq<T>, p: T -> bool)
    ensures CountOf(rows, p) == 0 <==> forall row | row in rows :: !p(row)
  {
    if rows != [] {
      CountZeroIff(rows[..|rows| - 1], p);
      assert rows == rows[..|rows| - 1] + [rows[|rows| - 1]];
    }
  }

  lemma CountOneMore<T(!new)>(rows: seq<T>, row: T, p: T -> bool)
    ensures CountOf(rows + [row], p) == CountOf(rows, p) + if p(row) then 1 else 0
  {
    assert (rows + [row])[..|rows|] == rows;
  }

  /** Exactly as many of those picked as should be are left. */
  lemma {:induction false} CountOfKept<T(!new)>(rows: seq<T>, p: T -> bool, keep: nat)
    ensures CountOf(KeepNewest(rows, p, keep), p) == if CountOf(rows, p) <= keep then CountOf(rows, p) else keep
    decreases |rows|
  {
    if rows != [] {
      var older, last := rows[..|rows| - 1], rows[|rows| - 1];
      var left := if p(last) && keep > 0 then keep - 1 else keep;
      CountOfKept(older, p, left);
      CountOneMore(KeepNewest(older, p, left), last, p);
    }
  }

  /** Of anything else no more are left than there were. */
  lemma {:induction false} CountAfterwards<T(!new)>(rows: seq<T>, p: T -> bool, keep: nat, q: T -> bool)
    ensures CountOf(KeepNewest(rows, p, keep), q) <= CountOf(rows, q)
    decreases |rows|
  {
    if rows != [] {
      var older, last := rows[..|rows| - 1], rows[|rows| - 1];
      var left := if p(last) && keep > 0 then keep - 1 else keep;
      CountAfterwards(older, p, left, q);
      CountOneMore(KeepNewest(older, p, left), last, q);
    }
  }

  lemma {:induction false} CountMonotone<T(!new)>(rows: seq<T>, p: T -> bool, q: T -> bool)
    requires forall i | 0 <= i < |rows| :: p(rows[i]) ==> q(rows[i])
    ensures CountOf(rows, p) <= CountOf(rows, q)
    decreases |rows|
  {
    if rows != [] {
      CountMonotone(rows[..|rows| - 1], p, q);
    }
  }

  lemma {:induction false} CountSuffix<T(!new)>(rows: seq<T>, p: T -> bool, i: nat)
    requires i <= |rows|
    ensures CountOf(rows[i..], p) <= CountOf(rows, p)
    decreases |rows|
  {
    if i == |rows| {
      assert rows[i..] == [];
    } else {
      CountSuffix(rows[..|rows| - 1], p, i);
      var newer := rows[i..];
      assert newer[..|newer| - 1] == rows[..|rows| - 1][i..];
    }
  }

  lemma {:induction false} CountPointwise<T(!new)>(rows: seq<T>, now: seq<T>, p: T -> bool)
    requires |rows| == |now| && forall i | 0 <= i < |rows| :: p(now[i]) ==> p(rows[i])
    ensures CountOf(now, p) <= CountOf(rows, p)
    decreases |rows|
  {
    if rows != [] {
      CountPointwise(rows[..|rows| - 1], now[..|now| - 1], p);
    }
  }

  lemma {:induction false} CountNone<T(!new)>(rows: seq<T>, p: T -> bool)
    requires forall i | 0 <= i < |rows| :: !p(rows[i])
    ensures CountOf(rows, p) == 0
    decreases |rows|
  {
    if rows != [] {
      CountNone(rows[..|rows| - 1], p);
    }
  }
}
