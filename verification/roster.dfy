/**
 * Decoding the roster sheet into families, as both pages do after the CSV has
 * been tokenised: skip the header row, keep rows with four cells and a
 * non-empty column B, trim the name, read the counts with `parseInt(x) || 0`,
 * then sort by name with the locale comparison.
 */
module Roster {
  import opened Wrappers
  import opened Text
  import opened Numbers
  import opened Records

  /** What `localeCompare(a, b) <= 0` is assumed to be: a total preorder on names. */
  ghost predicate TotalPreorder(leq: (string, string) -> bool) {
    && (forall a, b :: leq(a, b) || leq(b, a))
    && (forall a, b, c :: leq(a, b) && leq(b, c) ==> leq(a, c))
  }

  ghost predicate SortedByName(fs: seq<FamilyData>, leq: (string, string) -> bool) {
    forall i, j :: 0 <= i < j < |fs| ==> leq(fs[i].name, fs[j].name)
  }

  /** A row the decode loop keeps. */
  predicate IsFamilyRow(row: seq<string>) {
    |row| >= 4 && row[1] != ""
  }

  function FamilyOf(row: seq<string>): FamilyData
    requires IsFamilyRow(row)
  {
    FamilyData(Trim(row[1]), ParseIntOrZero(row[2]), ParseIntOrZero(row[3]))
  }

  /** The families the decode loop pushes for `rows`, in row order. */
  function KeptRows(rows: seq<seq<string>>): seq<FamilyData> {
    if rows == [] then []
    else
      var last := rows[|rows| - 1];
      KeptRows(rows[..|rows| - 1]) + (if IsFamilyRow(last) then [FamilyOf(last)] else [])
  }

  /** Every kept family comes from a kept row, and every kept row yields its family. */
  lemma KeptRowsProvenance(rows: seq<seq<string>>)
    ensures forall f :: f in KeptRows(rows) ==>
              exists i :: 0 <= i < |rows| && IsFamilyRow(rows[i]) && f == FamilyOf(rows[i])
    ensures forall i :: 0 <= i < |rows| && IsFamilyRow(rows[i]) ==> FamilyOf(rows[i]) in KeptRows(rows)
  {
    KeptFamiliesComeFromRows(rows);
    KeptRowsYieldFamilies(rows);
  }

  lemma {:induction false} KeptFamiliesComeFromRows(rows: seq<seq<string>>)
    ensures forall f :: f in KeptRows(rows) ==>
              exists i :: 0 <= i < |rows| && IsFamilyRow(rows[i]) && f == FamilyOf(rows[i])
  {
    if rows != [] {
      var init := rows[..|rows| - 1];
      KeptFamiliesComeFromRows(init);
      forall f | f in KeptRows(rows)
        ensures exists i :: 0 <= i < |rows| && IsFamilyRow(rows[i]) && f == FamilyOf(rows[i])
      {
        if f in KeptRows(init) {
          var i :| 0 <= i < |init| && IsFamilyRow(init[i]) && f == FamilyOf(init[i]);
          assert rows[i] == init[i];
        } else {
          assert IsFamilyRow(rows[|rows| - 1]) && f == FamilyOf(rows[|rows| - 1]);
        }
      }
    }
  }

  lemma KeptRowsYieldFamilies(rows: seq<seq<string>>)
    ensures forall i :: 0 <= i < |rows| && IsFamilyRow(rows[i]) ==> FamilyOf(rows[i]) in KeptRows(rows)
  {
    forall i | 0 <= i < |rows| && IsFamilyRow(rows[i]) ensures FamilyOf(rows[i]) in KeptRows(rows) {
      KeptRowYieldsFamily(rows, i);
    }
  }

  lemma {:induction false} KeptRowYieldsFamily(rows: seq<seq<string>>, i: nat)
    requires i < |rows| && IsFamilyRow(rows[i])
    ensures FamilyOf(rows[i]) in KeptRows(rows)
    decreases |rows|
  {
    if i < |rows| - 1 {
      var init := rows[..|rows| - 1];
      assert rows[i] == init[i];
      KeptRowYieldsFamily(init, i);
      InitKeptRowsKept(rows, FamilyOf(init[i]));
    } else {
      LastKeptRowKept(rows);
    }
  }

  lemma LastKeptRowKept(rows: seq<seq<string>>)
    requires rows != [] && IsFamilyRow(rows[|rows| - 1])
    ensures FamilyOf(rows[|rows| - 1]) in KeptRows(rows)
  {
    assert KeptRows(rows) == KeptRows(rows[..|rows| - 1]) + [FamilyOf(rows[|rows| - 1])];
  }

  lemma InitKeptRowsKept(rows: seq<seq<string>>, f: FamilyData)
    requires rows != [] && f in KeptRows(rows[..|rows| - 1])
    ensures f in KeptRows(rows)
  {
  }

  /** A permutation of the kept rows after the header holds exactly their families. */
  lemma RosterRowsMatch(data: seq<seq<string>>, families: seq<FamilyData>)
    requires |data| > 0 && multiset(families) == multiset(KeptRows(data[1..]))
    ensures forall f :: f in families ==>
              exists i :: 1 <= i < |data| && |data[i]| >= 4 && data[i][1] != ""
                          && f == FamilyData(Trim(data[i][1]), ParseIntOrZero(data[i][2]), ParseIntOrZero(data[i][3]))
    ensures forall i :: 1 <= i < |data| && |data[i]| >= 4 && data[i][1] != "" ==>
              FamilyData(Trim(data[i][1]), ParseIntOrZero(data[i][2]), ParseIntOrZero(data[i][3])) in families
  {
    var rows := data[1..];
    KeptRowsProvenance(rows);
    forall f | f in families
      ensures exists k :: 1 <= k < |data| && |data[k]| >= 4 && data[k][1] != ""
                          && f == FamilyData(Trim(data[k][1]), ParseIntOrZero(data[k][2]), ParseIntOrZero(data[k][3]))
    {
      assert f in multiset(families);
      assert f in KeptRows(rows);
      var k :| 0 <= k < |rows| && IsFamilyRow(rows[k]) && f == FamilyOf(rows[k]);
      assert rows[k] == data[k + 1];
    }
    forall k | 1 <= k < |data| && |data[k]| >= 4 && data[k][1] != ""
      ensures FamilyData(Trim(data[k][1]), ParseIntOrZero(data[k][2]), ParseIntOrZero(data[k][3])) in families
    {
      assert rows[k - 1] == data[k];
      var f := FamilyOf(rows[k - 1]);
      assert f in KeptRows(rows);
      assert f in multiset(families);
    }
  }

  /** `sort((a, b) => a.name.localeCompare(b.name))`, in place. */
  method SortByName(a: array<FamilyData>, leq: (string, string) -> bool)
    requires TotalPreorder(leq)
    modifies a
    ensures SortedByName(a[..], leq)
    ensures multiset(a[..]) == old(multiset(a[..]))
  {
    var i := 0;
    while i < a.Length
      invariant 0 <= i <= a.Length
      invariant forall p, q :: 0 <= p < q < i ==> leq(a[p].name, a[q].name)
      invariant multiset(a[..]) == old(multiset(a[..]))
    {
      var j := i;
      while j > 0 && !leq(a[j - 1].name, a[j].name)
        invariant 0 <= j <= i
        invariant forall p, q :: 0 <= p < q <= i && q != j ==> leq(a[p].name, a[q].name)
        invariant multiset(a[..]) == old(multiset(a[..]))
      {
        a[j - 1], a[j] := a[j], a[j - 1];
        j := j - 1;
      }
      i := i + 1;
    }
  }

  /** One more row of the sheet adds its family, if it is kept, at the end. */
  lemma KeptRowsExtend(data: seq<seq<string>>, i: nat)
    requires 1 <= i < |data|
    ensures KeptRows(data[1..i + 1])
            == KeptRows(data[1..i]) + (if IsFamilyRow(data[i]) then [FamilyOf(data[i])] else [])
  {
    assert data[1..i + 1][..i - 1] == data[1..i];
  }

  /**
   * The decode loop and the sort. The result is sorted by name, holds exactly
   * the families of the kept rows after the header (as a multiset), each of
   * them read from such a row, and every such row contributes its family.
   */
  method DecodeRoster(data: seq<seq<string>>, leq: (string, string) -> bool) returns (families: seq<FamilyData>)
    requires TotalPreorder(leq)
    ensures SortedByName(families, leq)
    ensures |data| > 0 ==> multiset(families) == multiset(KeptRows(data[1..]))
    ensures |data| <= 1 ==> families == []
    ensures forall f :: f in families ==>
              exists i :: 1 <= i < |data| && |data[i]| >= 4 && data[i][1] != ""
                          && f == FamilyData(Trim(data[i][1]), ParseIntOrZero(data[i][2]), ParseIntOrZero(data[i][3]))
    ensures forall i :: 1 <= i < |data| && |data[i]| >= 4 && data[i][1] != "" ==>
              FamilyData(Trim(data[i][1]), ParseIntOrZero(data[i][2]), ParseIntOrZero(data[i][3])) in families
  {
    var parsed: seq<FamilyData> := [];
    var n := |data|;
    var i := 1;
    while i < n
      invariant n > 0 ==> 1 <= i <= n
      invariant n > 0 ==> parsed == KeptRows(data[1..i])
      invariant n == 0 ==> parsed == []
    {
      var row := data[i];
      KeptRowsExtend(data, i);
      if |row| >= 4 && row[1] != "" {
        parsed := parsed + [FamilyData(Trim(row[1]), ParseIntOrZero(row[2]), ParseIntOrZero(row[3]))];
      }
      i := i + 1;
    }
    var a := new FamilyData[|parsed|](j requires 0 <= j < |parsed| => parsed[j]);
    assert a[..] == parsed;
    SortByName(a, leq);
    families := a[..];
    if n > 0 {
      assert data[1..i] == data[1..];
      RosterRowsMatch(data, families);
    }
  }
}
