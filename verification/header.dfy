/**
 * Header de-duplication (`_make_columns_unique`): the first occurrence of a
 * name is kept, the k-th repeat of name `c` becomes `c.k`.
 */
module Header {

  import opened Common
  import opened Strings
  import opened Tables

  /** The name given to an occurrence of `c` that follows `k` earlier occurrences of `c`. */
  function Renamed(c: string, k: nat): string {
    if k == 0 then c else c + "." + Decimal(k)
  }

  /** The de-duplicated header, defined one name at a time from the left. */
  function Deduplicate(names: seq<string>): (r: seq<string>)
    ensures |r| == |names|
  {
    if names == [] then []
    else
      var init := names[..|names| - 1];
      var c := names[|names| - 1];
      Deduplicate(init) + [Renamed(c, multiset(init)[c])]
  }

  /**
   * Position by position: the name at `i` is kept when it has not occurred
   * before, and otherwise gets the suffix `.k` for its `k` earlier occurrences.
   */
  lemma {:induction false} DeduplicateAt(names: seq<string>, i: nat)
    requires i < |names|
    ensures Deduplicate(names)[i] == Renamed(names[i], multiset(names[..i])[names[i]])
  {
    var n := |names| - 1;
    var init := names[..n];
    if i < n {
      DeduplicateAt(init, i);
      assert init[..i] == names[..i];
    } else {
      assert init == names[..i];
    }
  }

  /** One more name: the de-duplicated header grows by that name's new label. */
  lemma DeduplicateSnoc(names: seq<string>, i: nat)
    requires i < |names|
    ensures Deduplicate(names[..i + 1]) == Deduplicate(names[..i]) + [Renamed(names[i], multiset(names[..i])[names[i]])]
    ensures multiset(names[..i + 1]) == multiset(names[..i]) + multiset{names[i]}
  {
    assert names[..i + 1][..i] == names[..i];
    assert names[..i + 1] == names[..i] + [names[i]];
  }

  /** `seen` maps every name met so far to its number of earlier repeats. */
  ghost predicate SeenCounts(seen: map<string, nat>, met: multiset<string>) {
    forall c :: (c in seen <==> c in met) && (c in seen ==> seen[c] + 1 == met[c])
  }

  /** Recording one more occurrence of `c` keeps `seen` in step with the names met. */
  lemma SeenStep(seen: map<string, nat>, met: multiset<string>, c: string)
    requires SeenCounts(seen, met)
    ensures c in seen ==> seen[c] + 1 == met[c] && SeenCounts(seen[c := seen[c] + 1], met + multiset{c})
    ensures c !in seen ==> met[c] == 0 && SeenCounts(seen[c := 0], met + multiset{c})
  {
  }

  /** `_make_columns_unique`: a loop over the header with a map of counts seen so far. */
  method MakeColumnsUnique(columns: seq<Cell>) returns (newColumns: seq<string>)
    ensures newColumns == Deduplicate(Texts(columns))
  {
    ghost var names := Texts(columns);
    var seen: map<string, nat> := map[];
    newColumns := [];
    for i := 0 to |columns|
      invariant newColumns == Deduplicate(names[..i])
      invariant SeenCounts(seen, multiset(names[..i]))
    {
      var colStr := CellText(columns[i]);
      DeduplicateSnoc(names, i);
      SeenStep(seen, multiset(names[..i]), colStr);
      if colStr in seen {
        seen := seen[colStr := seen[colStr] + 1];
        newColumns := newColumns + [colStr + "." + Decimal(seen[colStr])];
      } else {
        seen := seen[colStr := 0];
        newColumns := newColumns + [colStr];
      }
    }
    assert names[..|columns|] == names;
  }

  /** The documented example: `SKU, Price, SKU, SKU` becomes `SKU, Price, SKU.1, SKU.2`. */
  lemma DeduplicateExample()
    ensures Deduplicate(["SKU", "Price", "SKU", "SKU"]) == ["SKU", "Price", "SKU.1", "SKU.2"]
  {
    var names := ["SKU", "Price", "SKU", "SKU"];
    assert Decimal(1) == "1" && Decimal(2) == "2";
    assert multiset(names[..2])["SKU"] == 1 by { assert names[..2] == ["SKU", "Price"]; }
    assert multiset(names[..3])["SKU"] == 2 by { assert names[..3] == ["SKU", "Price", "SKU"]; }
    assert multiset(names[..1])["Price"] == 0 by { assert names[..1] == ["SKU"]; }
    DeduplicateAt(names, 0);
    DeduplicateAt(names, 1);
    DeduplicateAt(names, 2);
    DeduplicateAt(names, 3);
    var r := Deduplicate(names);
    assert r[2] == "SKU.1" && r[3] == "SKU.2";
  }

  /**
   * The guarantee is conditional: a header that already holds `A.1` beside two
   * `A`s comes out with `A.1` twice.
   */
  lemma DeduplicateCanRepeat()
    ensures Deduplicate(["A", "A", "A.1"]) == ["A", "A.1", "A.1"]
    ensures !NoDuplicates(Deduplicate(["A", "A", "A.1"]))
  {
    var names := ["A", "A", "A.1"];
    assert Decimal(1) == "1";
    assert multiset(names[..1])["A"] == 1 by { assert names[..1] == ["A"]; }
    assert multiset(names[..2])["A.1"] == 0 by { assert names[..2] == ["A", "A"]; }
    DeduplicateAt(names, 0);
    DeduplicateAt(names, 1);
    DeduplicateAt(names, 2);
    var r := Deduplicate(names);
    assert r[1] == "A.1" && r[2] == "A.1";
  }

  /** Some name equals another name followed by `.` and a positive number. */
  ghost predicate SuffixClash(names: seq<string>) {
    exists i, j, k: nat :: 0 <= i < |names| && 0 <= j < |names| && 1 <= k && names[i] == names[j] + "." + Decimal(k)
  }

  /** After the separating dot, a numeric suffix holds no further dot. */
  lemma DotOnlyAt(a: string, k: nat)
    ensures forall i :: |a| < i < |a + "." + Decimal(k)| ==> (a + "." + Decimal(k))[i] != '.'
  {
    var x := a + "." + Decimal(k);
    forall i | |a| < i < |x|
      ensures x[i] != '.'
    {
      assert x[i] == Decimal(k)[i - |a| - 1];
      assert x[i] in Decimal(k);
    }
  }

  /** A name with a numeric suffix determines both the name and the number. */
  lemma SuffixedEq(a: string, k: nat, b: string, m: nat)
    ensures a + "." + Decimal(k) == b + "." + Decimal(m) ==> a == b && k == m
  {
    var x, y := a + "." + Decimal(k), b + "." + Decimal(m);
    if x == y {
      DotOnlyAt(a, k);
      DotOnlyAt(b, m);
      assert x[|a|] == '.' && y[|b|] == '.';
      assert |a| == |b|;
      assert a == x[..|a|] && b == y[..|b|];
      assert Decimal(k) == x[|a| + 1..] && Decimal(m) == y[|b| + 1..];
      DecimalInjective(k, m);
    }
  }

  /** Between positions `i < j` holding the same name, the count of earlier occurrences grows. */
  lemma CountGrows(names: seq<string>, i: nat, j: nat)
    requires i < j <= |names|
    ensures multiset(names[..j])[names[i]] >= multiset(names[..i])[names[i]] + 1
  {
    assert names[..j] == names[..i] + [names[i]] + names[i + 1..j];
  }

  /**
   * Without a suffix clash in the input, the de-duplicated header has no
   * repeated name.
   */
  lemma DeduplicateDistinct(names: seq<string>)
    requires !SuffixClash(names)
    ensures NoDuplicates(Deduplicate(names))
  {
    var r := Deduplicate(names);
    forall i, j | 0 <= i < j < |r|
      ensures r[i] != r[j]
    {
      DeduplicateAt(names, i);
      DeduplicateAt(names, j);
      var ki := multiset(names[..i])[names[i]];
      var kj := multiset(names[..j])[names[j]];
      CountGrows(names, i, j);
      assert names[i] == names[j] ==> kj > ki;
      if ki == 0 && kj != 0 {
        assert !(names[i] == names[j] + "." + Decimal(kj));
      } else if ki != 0 && kj == 0 {
        assert !(names[j] == names[i] + "." + Decimal(ki));
      } else if ki != 0 && kj != 0 {
        SuffixedEq(names[i], ki, names[j], kj);
      }
    }
  }
}
