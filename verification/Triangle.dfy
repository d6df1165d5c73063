/** pca_cov_splitter: the upper triangle of a matrix, handed out in pieces by two cursors. */
module Triangle {
  import opened Sequences

  /** pca_cov_loc_t */
  datatype Loc = Loc(startRow: nat, covRow: nat)

  /** A place the cursors can be in: inside the triangle, or past its end. */
  predicate IsCursor(n: nat, s: nat, c: nat) {
    if s < n then s <= c < n else s == c == n
  }

  /** The locations from the cursors on, row by row. */
  function From(n: nat, s: nat, c: nat): seq<Loc>
    requires IsCursor(n, s, c)
    decreases n - s, n - c
  {
    if s >= n then []
    else [Loc(s, c)] + if c + 1 >= n then From(n, s + 1, s + 1) else From(n, s, c + 1)
  }

  predicate Before(a: Loc, b: Loc) {
    a.startRow < b.startRow || (a.startRow == b.startRow && a.covRow < b.covRow)
  }

  /** In row-major order, so no location comes twice. */
  ghost predicate RowMajor(locs: seq<Loc>) {
    forall i, j :: 0 <= i < j < |locs| ==> Before(locs[i], locs[j])
  }

  lemma {:induction false} FromIsAfter(n: nat, s: nat, c: nat)
    requires IsCursor(n, s, c)
    ensures forall i :: 0 <= i < |From(n, s, c)| ==>
              !Before(From(n, s, c)[i], Loc(s, c)) && From(n, s, c)[i].startRow <= From(n, s, c)[i].covRow < n
    decreases n - s, n - c
  {
    if s < n {
      if c + 1 >= n {
        FromIsAfter(n, s + 1, s + 1);
      } else {
        FromIsAfter(n, s, c + 1);
      }
    }
  }

  lemma {:induction false} RowMajorCons(first: Loc, rest: seq<Loc>)
    requires RowMajor(rest) && forall i :: 0 <= i < |rest| ==> Before(first, rest[i])
    ensures RowMajor([first] + rest)
  {
    var r := [first] + rest;
    assert forall i :: 1 <= i < |r| ==> r[i] == rest[i - 1];
  }

  lemma {:induction false} FromIsRowMajor(n: nat, s: nat, c: nat)
    requires IsCursor(n, s, c)
    ensures RowMajor(From(n, s, c))
    decreases n - s, n - c
  {
    if s < n {
      var t, d := if c + 1 >= n then s + 1 else s, if c + 1 >= n then s + 1 else c + 1;
      FromIsRowMajor(n, t, d);
      FromIsAfter(n, t, d);
      var rest := From(n, t, d);
      forall i | 0 <= i < |rest|
        ensures Before(Loc(s, c), rest[i])
      {
        assert !Before(rest[i], Loc(t, d));
      }
      RowMajorCons(Loc(s, c), rest);
    }
  }

  /** Nothing of the triangle at or behind the cursors is missing. */
  lemma {:induction false} FromHasAll(n: nat, s: nat, c: nat, loc: Loc)
    requires IsCursor(n, s, c) && loc.startRow <= loc.covRow < n && !Before(loc, Loc(s, c))
    ensures loc in From(n, s, c)
    decreases n - s, n - c
  {
    if loc != Loc(s, c) {
      var t, d := if c + 1 >= n then s + 1 else s, if c + 1 >= n then s + 1 else c + 1;
      assert !Before(loc, Loc(t, d)) && IsCursor(n, t, d);
      FromHasAll(n, t, d, loc);
      FromCons(n, s, c);
    }
  }

  lemma {:induction false} FromCons(n: nat, s: nat, c: nat)
    requires IsCursor(n, s, c) && s < n
    ensures From(n, s, c) == [Loc(s, c)] + if c + 1 >= n then From(n, s + 1, s + 1) else From(n, s, c + 1)
  {
  }

  function Sum(m: nat): nat {
    if m == 0 then 0 else m + Sum(m - 1)
  }

  lemma {:induction false} SumClosed(m: nat)
    ensures 2 * Sum(m) == m * (m + 1)
  {
    if m > 0 {
      SumClosed(m - 1);
    }
  }

  lemma {:induction false} FromLength(n: nat, s: nat, c: nat)
    requires IsCursor(n, s, c)
    ensures |From(n, s, c)| == if s >= n then 0 else n - c + Sum(n - s - 1)
    decreases n - s, n - c
  {
    if s < n {
      if c + 1 >= n {
        FromLength(n, s + 1, s + 1);
      } else {
        FromLength(n, s, c + 1);
      }
    }
  }

  /** From the start the cursors meet every pair (i, j) with i <= j < n exactly once, in row-major order,
      n (n + 1) / 2 of them. */
  lemma {:induction false} TriangleIsComplete(n: nat)
    ensures RowMajor(From(n, 0, 0))
    ensures forall loc :: loc in From(n, 0, 0) <==> loc.startRow <= loc.covRow < n
    ensures 2 * |From(n, 0, 0)| == n * (n + 1)
  {
    FromIsRowMajor(n, 0, 0);
    FromIsAfter(n, 0, 0);
    forall loc: Loc | loc.startRow <= loc.covRow < n
      ensures loc in From(n, 0, 0)
    {
      FromHasAll(n, 0, 0, loc);
    }
    FromLength(n, 0, 0);
    SumClosed(n);
  }

  class CovSplitter {
    const numRows: nat
    var nextStartRow: nat
    var nextCovRow: nat

    ghost predicate Valid()
      reads this
    {
      IsCursor(numRows, nextStartRow, nextCovRow)
    }

    ghost function Rest(): seq<Loc>
      requires Valid()
      reads this
    {
      From(numRows, nextStartRow, nextCovRow)
    }

    constructor (numRows: nat)
      ensures this.numRows == numRows && nextStartRow == 0 && nextCovRow == 0 && Valid()
    {
      this.numRows, nextStartRow, nextCovRow := numRows, 0, 0;
    }

    /** pca_cov_splitter: the next locations, as many as asked for unless fewer are left. */
    method Split(reqUnits: nat) returns (more: bool, locs: seq<Loc>)
      requires Valid() && reqUnits > 0
      modifies this
      ensures Valid() && old(Rest()) == locs + Rest()
      ensures |locs| == if |old(Rest())| < reqUnits then |old(Rest())| else reqUnits
      ensures more == (old(Rest()) != [])
    {
      locs := [];
      if nextStartRow >= numRows && nextCovRow >= numRows {
        return false, [];
      }
      more := true;
      ghost var whole, rest := Rest(), Rest();
      while nextStartRow < numRows && |locs| < reqUnits
        invariant Valid() && rest == Rest() && whole == locs + rest && |locs| <= reqUnits
        decreases reqUnits - |locs|
      {
        ghost var first := Loc(nextStartRow, nextCovRow);
        locs := locs + [Loc(nextStartRow, nextCovRow)];
        if nextCovRow + 1 >= numRows {
          nextStartRow := nextStartRow + 1;
          nextCovRow := nextStartRow;
        } else {
          nextCovRow := nextCovRow + 1;
        }
        assert rest == [first] + Rest();
        ConcatAssoc(locs[..|locs| - 1], [first], Rest());
        rest := Rest();
      }
    }

    /** Successive calls, until the splitter returns 0: together the whole triangle. */
    method SplitAll(reqUnits: nat) returns (pieces: seq<seq<Loc>>, ghost all: seq<Loc>)
      requires Valid() && reqUnits > 0 && nextStartRow == 0 && nextCovRow == 0
      modifies this
      ensures all == Concat(pieces) == From(numRows, 0, 0)
      ensures forall p :: 0 <= p < |pieces| ==> 0 < |pieces[p]| <= reqUnits
      ensures Valid() && Rest() == []
    {
      pieces, all := [], [];
      ghost var whole := Rest();
      var more, locs := Split(reqUnits);
      ghost var rest := Rest();
      while more
        invariant Valid() && rest == Rest() && whole == all + (locs + rest) && all == Concat(pieces)
        invariant if more then 0 < |locs| <= reqUnits else locs == [] && rest == []
        invariant forall p :: 0 <= p < |pieces| ==> 0 < |pieces[p]| <= reqUnits
        decreases more, |rest|
      {
        ConcatSnoc(pieces, locs);
        ConcatAssoc(all, locs, rest);
        pieces, all := pieces + [locs], all + locs;
        more, locs := Split(reqUnits);
        assert rest == locs + Rest();
        rest := Rest();
      }
    }
  }

  lemma {:induction false} ConcatSnoc(pieces: seq<seq<Loc>>, last: seq<Loc>)
    ensures Concat(pieces + [last]) == Concat(pieces) + last
  {
    assert (pieces + [last])[..|pieces|] == pieces;
  }

  function Concat(pieces: seq<seq<Loc>>): seq<Loc> {
    if pieces == [] then [] else Concat(pieces[..|pieces| - 1]) + pieces[|pieces| - 1]
  }
}
