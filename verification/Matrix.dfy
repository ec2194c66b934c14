/** Matrices as sequences of lines: transposing, reversing and inserting a line. With these a mesh can
    be looked at along any of the four directions, and a line put in behind another in one of them is
    a column or a row put in at an index. All facts are stated by the entry at a place, which is
    there or not. */
module Matrix {
  import opened Sequences

  type Lines<T> = seq<seq<T>>

  ghost predicate Rectangular<T>(m: Lines<T>) {
    |m| > 0 && |m[0]| > 0 && forall i :: 0 <= i < |m| ==> |m[i]| == |m[0]|
  }

  ghost predicate Inside<T>(m: Lines<T>, i: int, j: int) { 0 <= i < |m| && 0 <= j < |m[i]| }

  ghost function At<T>(m: Lines<T>, i: int, j: int): Option<T> { if Inside(m, i, j) then Some(m[i][j]) else None }

  /** No entry occurs at two places. */
  ghost predicate Injective<T>(m: Lines<T>) {
    forall i, j, k, l :: Inside(m, i, j) && Inside(m, k, l) && m[i][j] == m[k][l] ==> i == k && j == l
  }

  ghost function Transposed<T>(m: Lines<T>): Lines<T>
    requires Rectangular(m)
  {
    seq(|m[0]|, j requires 0 <= j < |m[0]| => seq(|m|, i requires 0 <= i < |m| => m[i][j]))
  }

  ghost function Reversed<T>(m: Lines<T>): Lines<T> {
    seq(|m|, i requires 0 <= i < |m| => m[|m| - 1 - i])
  }

  /** Equal shape and equal entries. */
  lemma SameMatrix<T>(m: Lines<T>, n: Lines<T>)
    requires |m| == |n| && forall i, j :: At(m, i, j) == At(n, i, j)
    ensures m == n
  {
    forall i | 0 <= i < |m| ensures m[i] == n[i] {
      assert At(m, i, |m[i]|) == At(n, i, |m[i]|) && At(m, i, |n[i]|) == At(n, i, |n[i]|);
      forall j | 0 <= j < |m[i]| ensures m[i][j] == n[i][j] { assert At(m, i, j) == At(n, i, j); }
    }
  }

  lemma TransposedAt<T>(m: Lines<T>)
    requires Rectangular(m)
    ensures Rectangular(Transposed(m)) && |Transposed(m)| == |m[0]| && |Transposed(m)[0]| == |m|
    ensures forall i, j :: At(Transposed(m), j, i) == At(m, i, j)
  {
    var t := Transposed(m);
    forall i, j ensures At(t, j, i) == At(m, i, j) {
      assert Inside(t, j, i) <==> Inside(m, i, j);
    }
  }

  lemma TransposedTwice<T>(m: Lines<T>)
    requires Rectangular(m)
    ensures Rectangular(Transposed(m)) && Transposed(Transposed(m)) == m
  {
    TransposedAt(m);
    TransposedAt(Transposed(m));
    hide Transposed;
    SameMatrix(Transposed(Transposed(m)), m);
  }

  lemma ReversedAt<T>(m: Lines<T>)
    ensures |Reversed(m)| == |m|
    ensures Rectangular(m) ==> Rectangular(Reversed(m)) && |Reversed(m)[0]| == |m[0]|
    ensures forall i, j :: At(Reversed(m), i, j) == At(m, |m| - 1 - i, j)
  {
  }

  lemma ReversedAtPoint<T>(m: Lines<T>, i: int, j: int)
    ensures |Reversed(m)| == |m|
    ensures At(Reversed(m), i, j) == At(m, |m| - 1 - i, j)
  {
  }

  lemma ReversedTwice<T>(m: Lines<T>)
    ensures Reversed(Reversed(m)) == m
  {
  }

  lemma InjectiveAt<T>(m: Lines<T>)
    ensures Injective(m) <==>
      forall i, j, k, l :: At(m, i, j).Some? && At(m, i, j) == At(m, k, l) ==> i == k && j == l
  {
    if Injective(m) {
      forall i, j, k, l | At(m, i, j).Some? && At(m, i, j) == At(m, k, l) ensures i == k && j == l {}
    } else {
      var i, j, k, l :| Inside(m, i, j) && Inside(m, k, l) && m[i][j] == m[k][l] && !(i == k && j == l);
      assert At(m, i, j) == At(m, k, l);
    }
  }

  lemma TransposedInjective<T>(m: Lines<T>)
    requires Rectangular(m)
    ensures Injective(Transposed(m)) <==> Injective(m)
  {
    InjectiveAt(m);
    InjectiveAt(Transposed(m));
    TransposedAt(m);
    hide Transposed, Injective;
    var t := Transposed(m);
    if Injective(m) {
      forall j, i, l, k | At(t, j, i).Some? && At(t, j, i) == At(t, l, k) ensures j == l && i == k {
        assert At(m, i, j) == At(m, k, l);
      }
    }
    if Injective(t) {
      forall i, j, k, l | At(m, i, j).Some? && At(m, i, j) == At(m, k, l) ensures i == k && j == l {
        assert At(t, j, i) == At(t, l, k);
      }
    }
  }

  lemma ReversedInjective<T>(m: Lines<T>)
    ensures Injective(Reversed(m)) <==> Injective(m)
  {
    var r := Reversed(m);
    InjectiveAt(m);
    InjectiveAt(r);
    ReversedAt(m);
    hide Reversed, Injective;
    if Injective(m) {
      forall i, j, k, l | At(r, i, j).Some? && At(r, i, j) == At(r, k, l) ensures i == k && j == l {
        assert At(m, |m| - 1 - i, j) == At(m, |m| - 1 - k, l);
      }
    }
    if Injective(r) {
      forall i, j, k, l | At(m, i, j).Some? && At(m, i, j) == At(m, k, l) ensures i == k && j == l {
        assert At(r, |m| - 1 - i, j) == At(m, i, j) && At(r, |m| - 1 - k, l) == At(m, k, l);
      }
    }
  }

  // ----- inserting -----

  ghost function InsertLine<T>(m: Lines<T>, k: nat, line: seq<T>): Lines<T>
    requires k <= |m|
  {
    m[..k] + [line] + m[k..]
  }

  ghost function InsertedAt<T>(m: Lines<T>, k: nat, line: seq<T>, i: int, j: int): Option<T> {
    if i < k then At(m, i, j)
    else if i == k then if 0 <= j < |line| then Some(line[j]) else None
    else At(m, i - 1, j)
  }

  lemma InsertLineAt<T>(m: Lines<T>, k: nat, line: seq<T>)
    requires k <= |m|
    ensures |InsertLine(m, k, line)| == |m| + 1
    ensures forall i, j :: At(InsertLine(m, k, line), i, j) == InsertedAt(m, k, line, i, j)
    ensures Rectangular(m) && |line| == |m[0]| ==>
      Rectangular(InsertLine(m, k, line)) && |InsertLine(m, k, line)[0]| == |m[0]|
  {
    var n := InsertLine(m, k, line);
    assert forall i :: 0 <= i < |n| ==> n[i] == if i < k then m[i] else if i == k then line else m[i - 1];
  }

  lemma InsertLineAtPoint<T>(m: Lines<T>, k: nat, line: seq<T>, i: int, j: int)
    requires k <= |m|
    ensures At(InsertLine(m, k, line), i, j) == InsertedAt(m, k, line, i, j)
  {
    InsertLineAt(m, k, line);
  }

  /** One entry into each line, at the same place. */
  ghost function InsertRow<T>(m: Lines<T>, k: nat, row: seq<T>): Lines<T>
    requires Rectangular(m) && k <= |m[0]| && |row| == |m|
  {
    seq(|m|, i requires 0 <= i < |m| => m[i][..k] + [row[i]] + m[i][k..])
  }

  lemma InsertRowAt<T>(m: Lines<T>, k: nat, row: seq<T>)
    requires Rectangular(m) && k <= |m[0]| && |row| == |m|
    ensures |InsertRow(m, k, row)| == |m|
    ensures forall i, j :: At(InsertRow(m, k, row), i, j) == RowInsertedAt(m, k, row, i, j)
  {
    var n := InsertRow(m, k, row);
    forall i, j ensures At(n, i, j) == RowInsertedAt(m, k, row, i, j) {
      if 0 <= i < |m| { assert n[i] == m[i][..k] + [row[i]] + m[i][k..]; }
    }
  }

  ghost function RowInsertedAt<T>(m: Lines<T>, k: nat, row: seq<T>, i: int, j: int): Option<T> {
    if j < k then At(m, i, j) else if j == k then if 0 <= i < |row| then Some(row[i]) else None else At(m, i, j - 1)
  }

  lemma TransposedInsert<T>(m: Lines<T>, k: nat, row: seq<T>)
    requires Rectangular(m) && k <= |m[0]| && |row| == |m|
    ensures Rectangular(Transposed(m)) && Rectangular(InsertLine(Transposed(m), k, row))
    ensures Transposed(InsertLine(Transposed(m), k, row)) == InsertRow(m, k, row)
  {
    var t := Transposed(m);
    TransposedAt(m);
    InsertLineAt(t, k, row);
    var n := InsertLine(t, k, row);
    TransposedAt(n);
    InsertRowAt(m, k, row);
    hide Transposed, InsertLine, InsertRow, Rectangular;
    forall i, j ensures At(Transposed(n), i, j) == At(InsertRow(m, k, row), i, j) {
      assert At(Transposed(n), i, j) == At(n, j, i) == InsertedAt(t, k, row, j, i);
    }
    SameMatrix(Transposed(n), InsertRow(m, k, row));
  }

  lemma ReversedInsert<T>(m: Lines<T>, k: nat, line: seq<T>)
    requires k <= |m|
    ensures |Reversed(m)| == |m|
    ensures Reversed(InsertLine(Reversed(m), k, line)) == InsertLine(m, |m| - k, line)
  {
    var n, w := InsertLine(Reversed(m), k, line), InsertLine(m, |m| - k, line);
    assert |Reversed(n)| == |w|;
    forall i | 0 <= i < |w| ensures Reversed(n)[i] == w[i] {}
  }
}
