/**
 * Text operations with the semantics of the Python built-ins the scripts use:
 * `str.isspace`, `str.strip()`, `str.split(',')`, `sep.join(...)` and `str(int)`,
 * and the parsing of a comma-separated list of column names.
 */
module Strings {

  import opened Common

  /** Python's `str.isspace` for a single character. */
  predicate IsSpace(c: char) {
    || c == ' '
    || ('\t' <= c <= '\r')
    || ('\U{1C}' <= c <= '\U{1F}')
    || c == '\U{85}' || c == '\U{A0}' || c == '\U{1680}'
    || ('\U{2000}' <= c <= '\U{200A}')
    || c == '\U{2028}' || c == '\U{2029}' || c == '\U{202F}' || c == '\U{205F}' || c == '\U{3000}'
  }

  predicate AllSpace(s: string) {
    forall i :: 0 <= i < |s| ==> IsSpace(s[i])
  }

  /** `s.lstrip()`: the longest suffix of `s` that does not start with whitespace. */
  function StripLeft(s: string): (r: string)
    ensures |r| <= |s| && r == s[|s| - |r|..]
    ensures AllSpace(s[..|s| - |r|])
    ensures r == [] || !IsSpace(r[0])
  {
    if s != [] && IsSpace(s[0]) then
      var r := StripLeft(s[1..]);
      var k := |s| - |r|;
      assert r == s[1..][k - 1..] == s[k..];
      assert s[..k] == [s[0]] + s[1..][..k - 1];
      SpacesCons(s[0], s[1..][..k - 1]);
      r
    else s
  }

  lemma SpacesCons(c: char, t: string)
    requires IsSpace(c) && AllSpace(t)
    ensures AllSpace([c] + t)
  {
    assert forall i :: 1 <= i < |t| + 1 ==> ([c] + t)[i] == t[i - 1];
  }

  /** `s.rstrip()`: the longest prefix of `s` that does not end with whitespace. */
  function StripRight(s: string): (r: string)
    ensures |r| <= |s| && r == s[..|r|]
    ensures AllSpace(s[|r|..])
    ensures r == [] || !IsSpace(r[|r| - 1])
  {
    if s != [] && IsSpace(s[|s| - 1]) then
      var r := StripRight(s[..|s| - 1]);
      assert s[|r|..] == s[..|s| - 1][|r|..] + [s[|s| - 1]];
      r
    else s
  }

  /** Non-empty, with no whitespace at either end: what `strip()` leaves of a non-blank text. */
  predicate IsTrimmed(n: string) {
    n != [] && !IsSpace(n[0]) && !IsSpace(n[|n| - 1])
  }

  /** `s.strip()`. */
  function Strip(s: string): (r: string)
    ensures |r| <= |s|
    ensures r == [] || IsTrimmed(r)
    ensures forall c :: c in r ==> c in s
  {
    StripParts(s);
    StripRight(StripLeft(s))
  }

  lemma StripParts(s: string)
    ensures var r := StripRight(StripLeft(s));
      && (r == [] || IsTrimmed(r))
      && forall c :: c in r ==> c in s
  {
    var l := StripLeft(s);
    var r := StripRight(l);
    assert r != [] ==> r[0] == l[0];
    SliceChars(l, 0, |r|);
    SliceChars(s, |s| - |l|, |s|);
  }

  lemma SliceChars(s: string, i: nat, j: nat)
    requires i <= j <= |s|
    ensures forall c :: c in s[i..j] ==> c in s
  {
    forall c | c in s[i..j]
      ensures c in s
    {
      var k :| 0 <= k < j - i && s[i..j][k] == c;
      assert s[i + k] == c;
    }
  }

  /**
   * `strip()` removes a whitespace prefix and a whitespace suffix and nothing
   * else: the result is the slice of the input between them.
   */
  lemma StripTrims(s: string)
    ensures var l := StripLeft(s); var i, r := |s| - |l|, Strip(s);
      && i + |r| <= |s|
      && s[i..][..|r|] == r
      && AllSpace(s[..i])
      && AllSpace(s[i..][|r|..])
  {
  }

  lemma {:induction false} StripLeftSkipsSpaces(lead: string, rest: string)
    requires AllSpace(lead)
    ensures StripLeft(lead + rest) == StripLeft(rest)
  {
    if lead == [] {
      assert lead + rest == rest;
    } else {
      assert (lead + rest)[1..] == lead[1..] + rest;
      StripLeftSkipsSpaces(lead[1..], rest);
    }
  }

  lemma {:induction false} StripRightSkipsSpaces(rest: string, trail: string)
    requires AllSpace(trail)
    ensures StripRight(rest + trail) == StripRight(rest)
  {
    if trail == [] {
      assert rest + trail == rest;
    } else {
      var n := |rest + trail|;
      assert (rest + trail)[..n - 1] == rest + trail[..|trail| - 1];
      StripRightSkipsSpaces(rest, trail[..|trail| - 1]);
    }
  }

  /**
   * `strip()` removes exactly the whitespace around a word that has none at its
   * ends: the partner of Strip's own contract, which says what is left.
   */
  lemma StripPadded(lead: string, w: string, trail: string)
    requires AllSpace(lead) && AllSpace(trail)
    requires w == [] || (!IsSpace(w[0]) && !IsSpace(w[|w| - 1]))
    ensures Strip(lead + w + trail) == w
  {
    assert lead + w + trail == lead + (w + trail);
    StripLeftSkipsSpaces(lead, w + trail);
    if w == [] {
      assert w + trail == trail;
    } else {
      assert StripLeft(w + trail) == w + trail;
      StripRightSkipsSpaces(w, trail);
    }
  }

  /** `strip()` leaves nothing exactly when the text is all whitespace. */
  lemma StripBlankIffAllSpace(t: string)
    ensures Strip(t) == "" <==> AllSpace(t)
  {
    if AllSpace(t) {
      assert t + "" + "" == t;
      StripPadded(t, "", "");
    }
    if Strip(t) == "" {
      var r := StripLeft(t);
      assert r == [];
      assert t[..|t|] == t;
    }
  }

  // ---------------------------------------------------------------------------
  // str.split(',') and sep.join

  /** `s.split(',')`: the pieces between commas, at least one (`"".split(',') == [""]`). */
  function Split(s: string): (pieces: seq<string>)
    ensures |pieces| >= 1
    ensures forall p :: p in pieces ==> ',' !in p
  {
    if s == [] then [[]]
    else
      var rest := Split(s[1..]);
      if s[0] == ',' then [[]] + rest
      else [[s[0]] + rest[0]] + rest[1..]
  }

  /** `sep.join(pieces)`. */
  function Join(pieces: seq<string>, sep: string): string {
    if |pieces| == 0 then ""
    else if |pieces| == 1 then pieces[0]
    else pieces[0] + sep + Join(pieces[1..], sep)
  }

  /** Joining the pieces of a split with the same separator gives back the text. */
  lemma {:induction false} JoinSplit(s: string)
    ensures Join(Split(s), ",") == s
  {
    if s != [] {
      var rest := Split(s[1..]);
      JoinSplit(s[1..]);
      if s[0] == ',' {
        assert Join([[]] + rest, ",") == [] + "," + Join(rest, ",");
      } else if |rest| == 1 {
        assert Split(s) == [[s[0]] + rest[0]];
      } else {
        assert Join(rest, ",") == rest[0] + "," + Join(rest[1..], ",");
        assert ([[s[0]] + rest[0]] + rest[1..])[1..] == rest[1..];
      }
    }
  }

  /** A comma-free prefix glues onto the first piece of what follows it. */
  lemma {:induction false} SplitCommaFree(a: string, rest: string)
    requires ',' !in a
    ensures Split(a + rest) == [a + Split(rest)[0]] + Split(rest)[1..]
  {
    if a == [] {
      assert a + rest == rest;
      assert a + Split(rest)[0] == Split(rest)[0];
    } else {
      assert (a + rest)[1..] == a[1..] + rest;
      SplitCommaFree(a[1..], rest);
      assert [a[0]] + (a[1..] + Split(rest)[0]) == a + Split(rest)[0];
    }
  }

  /** Splitting names joined by a comma and `pad` gives each name back, the later ones behind `pad`. */
  lemma {:induction false} SplitJoinPadded(lead: string, names: seq<string>, pad: string)
    requires |names| >= 1 && ',' !in lead && ',' !in pad
    requires forall n :: n in names ==> ',' !in n
    ensures var pieces := Split(lead + Join(names, "," + pad));
      && |pieces| == |names|
      && pieces[0] == lead + names[0]
      && forall i :: 1 <= i < |names| ==> pieces[i] == pad + names[i]
    decreases |names|
  {
    if |names| == 1 {
      SplitCommaFree(lead + names[0], "");
      assert lead + names[0] + "" == lead + names[0];
    } else {
      var tail := pad + Join(names[1..], "," + pad);
      assert lead + Join(names, "," + pad) == (lead + names[0]) + ("," + tail);
      SplitCommaFree(lead + names[0], "," + tail);
      assert ("," + tail)[1..] == tail;
      assert Split("," + tail) == [[]] + Split(tail);
      SplitJoinPadded(pad, names[1..], pad);
      assert lead + names[0] + Split("," + tail)[0] == lead + names[0];
    }
  }

  // ---------------------------------------------------------------------------
  // [col.strip() for col in s.split(',') if col.strip()]

  /** A name the comma-list parser can produce: non-empty, comma-free, no outer whitespace. */
  predicate IsCleanName(n: string) {
    IsTrimmed(n) && ',' !in n
  }

  /** The stripped pieces that are not blank, in order. */
  function StrippedNonBlank(pieces: seq<string>): (names: seq<string>)
    ensures |names| <= |pieces|
  {
    if pieces == [] then []
    else
      var t := Strip(pieces[0]);
      if t == [] then StrippedNonBlank(pieces[1..]) else [t] + StrippedNonBlank(pieces[1..])
  }

  /** Every name kept is stripped and non-blank, and comma-free pieces give comma-free names. */
  lemma {:induction false} StrippedNonBlankClean(pieces: seq<string>)
    requires forall k :: 0 <= k < |pieces| ==> ',' !in pieces[k]
    ensures forall k :: 0 <= k < |StrippedNonBlank(pieces)| ==> IsCleanName(StrippedNonBlank(pieces)[k])
  {
    if pieces != [] {
      var tail := pieces[1..];
      forall k | 0 <= k < |tail|
        ensures ',' !in tail[k]
      {
        assert tail[k] == pieces[k + 1];
      }
      StrippedNonBlankClean(tail);
      var t := Strip(pieces[0]);
      var rest := StrippedNonBlank(tail);
      if t != [] {
        assert ',' !in pieces[0];
        assert IsCleanName(t);
        var names := [t] + rest;
        assert StrippedNonBlank(pieces) == names;
        forall k | 0 <= k < |names|
          ensures IsCleanName(names[k])
        {
          if k > 0 {
            assert names[k] == rest[k - 1];
          }
        }
      }
    }
  }

  /** One piece: dropped when it is blank, otherwise kept stripped. */
  lemma StrippedNonBlankOne(p: string)
    ensures StrippedNonBlank([p]) == if AllSpace(p) then [] else [Strip(p)]
  {
    StripBlankIffAllSpace(p);
    assert [p][1..] == [];
  }

  /** The comprehension works piece by piece, in order. */
  lemma {:induction false} StrippedNonBlankAppend(a: seq<string>, b: seq<string>)
    ensures StrippedNonBlank(a + b) == StrippedNonBlank(a) + StrippedNonBlank(b)
  {
    if a == [] {
      assert a + b == b;
    } else {
      assert (a + b)[0] == a[0];
      assert (a + b)[1..] == a[1..] + b;
      StrippedNonBlankAppend(a[1..], b);
    }
  }

  /** Parsing of a comma-separated list of column names (`columns_to_extract`, `lookup_columns_to_add`). */
  function ParseColumnList(s: string): (names: seq<string>)
    ensures forall n :: n in names ==> IsCleanName(n)
  {
    var pieces := Split(s);
    assert forall k :: 0 <= k < |pieces| ==> pieces[k] in pieces;
    StrippedNonBlankClean(pieces);
    StrippedNonBlank(pieces)
  }

  /** Pieces that each strip to a non-blank name parse to exactly those names. */
  lemma {:induction false} StrippedNonBlankExact(pieces: seq<string>, names: seq<string>)
    requires |pieces| == |names|
    requires forall i :: 0 <= i < |names| ==> names[i] != [] && Strip(pieces[i]) == names[i]
    ensures StrippedNonBlank(pieces) == names
  {
    if pieces != [] {
      StrippedNonBlankExact(pieces[1..], names[1..]);
      assert names == [names[0]] + names[1..];
    }
  }

  /**
   * Round trip: a list of clean names written out with "," or ", " (or a comma
   * followed by any whitespace) parses back to the same list.
   */
  lemma ParseJoined(names: seq<string>, pad: string)
    requires AllSpace(pad)
    requires forall n :: n in names ==> IsCleanName(n)
    ensures ParseColumnList(Join(names, "," + pad)) == names
  {
    if names == [] {
      assert Split("") == [""];
    } else {
      SpaceIsNotComma(pad);
      SplitJoinPadded("", names, pad);
      var text := Join(names, "," + pad);
      assert "" + text == text;
      var pieces := Split(text);
      forall i | 0 <= i < |names|
        ensures names[i] != [] && Strip(pieces[i]) == names[i]
      {
        assert names[i] in names;
        if i == 0 {
          StripClean(names[0], "");
        } else {
          StripClean(names[i], pad);
        }
      }
      StrippedNonBlankExact(pieces, names);
    }
  }

  /** A comma ends the first piece. */
  lemma SplitAfter(a: string, rest: string)
    requires ',' !in a
    ensures Split(a + "," + rest) == [a] + Split(rest)
  {
    assert a + "," + rest == a + ("," + rest);
    SplitCommaFree(a, "," + rest);
    assert ("," + rest)[1..] == rest;
    assert a + [] == a;
  }

  /**
   * A blank piece between two commas contributes no name: the list parses as
   * if the piece and one of its commas were not there.
   */
  lemma ParseDropsBlankPiece(a: string, blank: string, rest: string)
    requires ',' !in a && AllSpace(blank)
    ensures ParseColumnList(a + "," + blank + "," + rest) == ParseColumnList(a + "," + rest)
  {
    SpaceIsNotComma(blank);
    var tail := Split(rest);
    assert a + "," + blank + "," + rest == a + "," + (blank + "," + rest);
    SplitAfter(a, blank + "," + rest);
    SplitAfter(blank, rest);
    SplitAfter(a, rest);
    assert Split(a + "," + blank + "," + rest) == [a] + [blank] + tail;
    StrippedNonBlankAppend([a] + [blank], tail);
    StrippedNonBlankAppend([a], [blank]);
    StrippedNonBlankAppend([a], tail);
    StrippedNonBlankOne(blank);
    assert StrippedNonBlank([a] + [blank]) == StrippedNonBlank([a]);
  }

  /** A trailing comma adds one empty piece. */
  lemma {:induction false} SplitTrailingComma(s: string)
    ensures Split(s + ",") == Split(s) + [""]
  {
    if s == [] {
      assert s + "," == ",";
      assert ","[1..] == "";
    } else {
      assert (s + ",")[0] == s[0];
      assert (s + ",")[1..] == s[1..] + ",";
      SplitTrailingComma(s[1..]);
    }
  }

  /** A trailing comma contributes no name. */
  lemma ParseDropsTrailingComma(s: string)
    ensures ParseColumnList(s + ",") == ParseColumnList(s)
  {
    SplitTrailingComma(s);
    StrippedNonBlankAppend(Split(s), [""]);
    StrippedNonBlankOne("");
  }

  /** A blank piece and a trailing comma are skipped: `"SKU, ,Price,"` gives `SKU`, `Price`. */
  lemma ParseSkipsBlankPieces()
    ensures ParseColumnList("SKU, ,Price,") == ["SKU", "Price"]
  {
    var text, inner := "SKU, ,Price,", "SKU, ,Price";
    assert text == inner + ",";
    ParseDropsTrailingComma(inner);
    BlankPieceExample();
    TwoNamesExample();
  }

  lemma BlankPieceExample()
    ensures ParseColumnList("SKU, ,Price") == ParseColumnList("SKU,Price")
  {
    assert "SKU, ,Price" == "SKU" + "," + " " + "," + "Price";
    assert "SKU,Price" == "SKU" + "," + "Price";
    assert AllSpace(" ");
    ParseDropsBlankPiece("SKU", " ", "Price");
  }

  lemma TwoNamesExample()
    ensures ParseColumnList("SKU,Price") == ["SKU", "Price"]
  {
    var names := ["SKU", "Price"];
    assert Join(names, "," + "") == "SKU,Price" by {
      assert names[1..] == ["Price"];
    }
    assert IsCleanName("SKU") && IsCleanName("Price");
    assert forall n :: n in names ==> IsCleanName(n);
    ParseJoined(names, "");
  }

  lemma StripClean(n: string, pad: string)
    requires IsCleanName(n) && AllSpace(pad)
    ensures n != [] && Strip(pad + n) == n
  {
    StripPadded(pad, n, "");
    assert pad + n + "" == pad + n;
  }

  lemma SpaceIsNotComma(pad: string)
    requires AllSpace(pad)
    ensures ',' !in pad
  {
  }

  /** The default setting of the application parses to its three names. */
  lemma ParseDefaultColumns()
    ensures ParseColumnList("SKU, Price, Quantity") == ["SKU", "Price", "Quantity"]
  {
    var names := ["SKU", "Price", "Quantity"];
    DefaultColumnsText();
    assert AllSpace(" ") && "," + " " == ", ";
    assert IsCleanName("SKU") && IsCleanName("Price") && IsCleanName("Quantity");
    assert forall n :: n in names ==> IsCleanName(n);
    ParseJoined(names, " ");
  }

  lemma DefaultColumnsText()
    ensures Join(["SKU", "Price", "Quantity"], ", ") == "SKU, Price, Quantity"
  {
    var names := ["SKU", "Price", "Quantity"];
    assert names[1..] == ["Price", "Quantity"] && names[1..][1..] == ["Quantity"];
    assert Join(["Quantity"], ", ") == "Quantity";
    assert Join(["Price", "Quantity"], ", ") == "Price, Quantity";
  }

  // ---------------------------------------------------------------------------
  // str(int)

  function Digit(d: nat): (c: char)
    requires d < 10
    ensures '0' <= c <= '9'
  {
    (48 + d) as char
  }

  /** Decimal digits of a natural number, without leading zeros. */
  function Decimal(n: nat): (r: string)
    ensures |r| >= 1 && (n >= 10 ==> |r| >= 2)
    ensures forall c :: c in r ==> '0' <= c <= '9'
  {
    if n < 10 then [Digit(n)] else Decimal(n / 10) + [Digit(n % 10)]
  }

  /** Different numbers are written differently. */
  lemma {:induction false} DecimalInjective(a: nat, b: nat)
    requires Decimal(a) == Decimal(b)
    ensures a == b
  {
    if a >= 10 && b >= 10 {
      var da, db := Decimal(a), Decimal(b);
      assert da[|da| - 1] == Digit(a % 10) && db[|db| - 1] == Digit(b % 10);
      assert da[..|da| - 1] == Decimal(a / 10);
      assert db[..|db| - 1] == Decimal(b / 10);
      DecimalInjective(a / 10, b / 10);
    }
  }

  /** `str(i)` for an integer. */
  function IntText(i: int): (r: string)
    ensures r != [] && forall c :: c in r ==> c == '-' || '0' <= c <= '9'
  {
    if i < 0 then "-" + Decimal(-i) else Decimal(i)
  }

  /** The text of a number is never blank. */
  lemma IntTextNotBlank(i: int)
    ensures Strip(IntText(i)) == IntText(i) != ""
  {
    var t := IntText(i);
    assert t[0] in t && t[|t| - 1] in t;
    StripPadded("", t, "");
    assert "" + t + "" == t;
  }
}
