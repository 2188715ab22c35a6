/** The "sargable" rewrite of a `GLOB 'prefix*'` filter into a range filter
    (`WhereClause.optimize_glob`, exercised by test/engine-test.py:842-908).

    SQLite compares TEXT values with its BINARY collation, i.e. byte-wise on
    UTF-8, which orders strings exactly as their sequences of code points.
    Strings are therefore modelled here as sequences of code points; a code
    point is any integer up to U+10FFFF, so "the next code point" is always
    `c + 1`, as Python's `unichr(c + 1)` is. */
module Glob {
  import opened Wrappers

  const MaxCodePoint: int := 0x10FFFF

  type CodePoint = c: int | 0 <= c <= MaxCodePoint

  type Text = seq<CodePoint>

  /** The code points of a Dafny string. */
  function Codes(s: string): (t: Text)
    ensures |t| == |s|
    ensures forall i :: 0 <= i < |s| ==> t[i] == s[i] as int
  {
    seq(|s|, i requires 0 <= i < |s| => s[i] as int)
  }

  /** `a < b` in code-point (and so UTF-8 byte) order. */
  predicate Below(a: Text, b: Text)
  {
    if b == [] then false
    else if a == [] then true
    else if a[0] != b[0] then a[0] < b[0]
    else Below(a[1..], b[1..])
  }

  /** What `value GLOB 'prefix*'` selects, for a prefix free of GLOB
      meta-characters. */
  predicate HasPrefix(value: Text, prefix: Text)
  {
    |prefix| <= |value| && value[..|prefix|] == prefix
  }

  predicate AllMax(p: Text)
  {
    forall i :: 0 <= i < |p| ==> p[i] == MaxCodePoint
  }

  /** The three statements `optimize_glob` can produce: no WHERE clause,
      `value >= ?`, and `value >= ? AND value < ?`. */
  datatype Range = Unbounded | AtLeast(low: Text) | Between(low: Text, high: Text)

  predicate InRange(r: Range, value: Text)
  {
    match r
    case Unbounded => true
    case AtLeast(low) => !Below(value, low)
    case Between(low, high) => !Below(value, low) && Below(value, high)
  }

  /** The smallest string above every string that starts with `p`: trailing
      U+10FFFF code points are dropped and the last remaining one is raised by
      one. There is none when `p` consists of U+10FFFF only. */
  function UpperBound(p: Text): (r: Option<Text>)
    ensures r.None? <==> AllMax(p)
  {
    if p == [] then None
    else if p[|p| - 1] == MaxCodePoint then
      var r := UpperBound(p[..|p| - 1]);
      assert AllMax(p[..|p| - 1]) ==> AllMax(p);
      r
    else
      Some(p[..|p| - 1] + [p[|p| - 1] + 1])
  }

  /** The bound keeps the code points before position `k`, raises the one at
      `k`, and `k` is the last position below U+10FFFF. */
  lemma {:induction false} UpperBoundShape(p: Text) returns (k: nat)
    requires UpperBound(p).Some?
    ensures k < |p| && p[k] < MaxCodePoint
    ensures forall j :: k < j < |p| ==> p[j] == MaxCodePoint
    ensures UpperBound(p).value == p[..k] + [p[k] + 1]
  {
    var q := p[..|p| - 1];
    if p[|p| - 1] == MaxCodePoint {
      k := UpperBoundShape(q);
      assert q[..k] == p[..k];
    } else {
      k := |p| - 1;
    }
  }

  /** `WhereClause.optimize_glob`: the range filter that replaces
      `GLOB 'prefix*'`. */
  function OptimizeGlob(prefix: Text): Range
  {
    if prefix == [] then Unbounded
    else
      match UpperBound(prefix)
      case None => AtLeast(prefix)
      case Some(high) => Between(prefix, high)
  }

  lemma HasPrefixCons(v: Text, p: Text)
    requires v != [] && p != []
    ensures HasPrefix(v, p) <==> v[0] == p[0] && HasPrefix(v[1..], p[1..])
  {
    if HasPrefix(v, p) {
      assert v[1..][..|p| - 1] == v[..|p|][1..];
    }
    if v[0] == p[0] && HasPrefix(v[1..], p[1..]) {
      assert v[..|p|] == [v[0]] + v[1..][..|p| - 1];
    }
  }

  /** When the prefix is U+10FFFF only, `value >= prefix` alone is exact. */
  lemma {:induction false} AtLeastAllMaxExact(v: Text, p: Text)
    requires AllMax(p)
    ensures !Below(v, p) <==> HasPrefix(v, p)
  {
    if p != [] && v != [] {
      HasPrefixCons(v, p);
      if v[0] == p[0] {
        AtLeastAllMaxExact(v[1..], p[1..]);
      }
    }
  }

  /** The two-sided range is exact when the bound raises position `k`, the
      last position below U+10FFFF. */
  lemma {:induction false} BetweenExact(v: Text, p: Text, k: nat)
    requires k < |p| && p[k] < MaxCodePoint
    requires forall j :: k < j < |p| ==> p[j] == MaxCodePoint
    ensures !Below(v, p) && Below(v, p[..k] + [p[k] + 1]) <==> HasPrefix(v, p)
  {
    var h := p[..k] + [p[k] + 1];
    if v != [] {
      HasPrefixCons(v, p);
      if k == 0 {
        assert h == [p[0] + 1];
        if v[0] == p[0] {
          AtLeastAllMaxExact(v[1..], p[1..]);
        }
      } else {
        assert h[0] == p[0];
        assert h[1..] == p[1..][..k - 1] + [p[1..][k - 1] + 1];
        if v[0] == p[0] {
          BetweenExact(v[1..], p[1..], k - 1);
        }
      }
    }
  }

  /** The rewrite selects exactly the strings `GLOB 'prefix*'` selects, for
      every prefix (empty, non-ASCII, ending in or made of U+10FFFF). */
  lemma OptimizeGlobExact(prefix: Text, value: Text)
    ensures InRange(OptimizeGlob(prefix), value) <==> HasPrefix(value, prefix)
  {
    if prefix != [] {
      match UpperBound(prefix)
      case None =>
        AtLeastAllMaxExact(value, prefix);
      case Some(high) =>
        var k := UpperBoundShape(prefix);
        BetweenExact(value, prefix, k);
    }
  }

  /** The rows of a table that a range filter returns, in table order. */
  function SelectRange(rows: seq<Text>, r: Range): seq<Text>
  {
    if rows == [] then []
    else (if InRange(r, rows[0]) then [rows[0]] else []) + SelectRange(rows[1..], r)
  }

  /** The rows of a table that `GLOB 'prefix*'` returns, in table order. */
  function SelectGlob(rows: seq<Text>, prefix: Text): seq<Text>
  {
    if rows == [] then []
    else (if HasPrefix(rows[0], prefix) then [rows[0]] else []) + SelectGlob(rows[1..], prefix)
  }

  /** Both statements fetch the same rows in the same order, for any table. */
  lemma {:induction false} SameRows(rows: seq<Text>, prefix: Text)
    ensures SelectRange(rows, OptimizeGlob(prefix)) == SelectGlob(rows, prefix)
  {
    if rows != [] {
      OptimizeGlobExact(prefix, rows[0]);
      SameRows(rows[1..], prefix);
    }
  }

  /** The six rows of the table in test/engine-test.py:846-853. */
  function TestRows(): seq<Text>
  {
    [ Codes("hällö, I'm gürmen - åge drikker øl - ☠ bug"),
      Codes("ä ☠ åø"),
      [0x68, MaxCodePoint],
      [MaxCodePoint],
      [],
      [MaxCodePoint, MaxCodePoint, 0x61, 0x61] ]
  }

  /** How many of the flags are set. */
  function CountSet(flags: seq<bool>): nat
  {
    if flags == [] then 0 else (if flags[0] then 1 else 0) + CountSet(flags[1..])
  }

  /** The range query selects as many rows of a table as start with the
      prefix. */
  lemma {:induction false} CountSelected(rows: seq<Text>, p: Text, flags: seq<bool>)
    requires |flags| == |rows|
    requires forall i :: 0 <= i < |rows| ==> HasPrefix(rows[i], p) == flags[i]
    ensures |SelectRange(rows, OptimizeGlob(p))| == CountSet(flags)
  {
    if rows != [] {
      OptimizeGlobExact(p, rows[0]);
      CountSelected(rows[1..], p, flags[1..]);
    }
  }

  /** The first code points of the two non-ASCII rows. */
  lemma TestRowHeads()
    ensures |TestRows()[0]| > 1 && TestRows()[0][0] == 0x68 && TestRows()[0][1] == 0xE4
    ensures TestRows()[1] == [0xE4, 0x20, 0x2620, 0x20, 0xE5, 0xF8]
  {
    var s0 := "hällö, I'm gürmen - åge drikker øl - ☠ bug";
    assert s0[0] == 'h' && s0[1] == 'ä';
  }

  /** Prefix "h" selects 2 rows (test/engine-test.py:857-862). */
  lemma TestRowCountAscii()
    ensures |SelectRange(TestRows(), OptimizeGlob(Codes("h")))| == 2
  {
    TestRowHeads();
    var rows := TestRows();
    var h := Codes("h");
    assert h == [0x68];
    assert rows[5][..1][0] != h[0] && rows[1][..1][0] != h[0];
    assert rows[0][..1] == h && rows[2][..1] == h;
    CountSelected(rows, h, [true, false, true, false, false, false]);
  }

  /** Prefix "ä ☠ å" selects 1 row (test/engine-test.py:864-870). */
  lemma TestRowCountUnicode()
    ensures |SelectRange(TestRows(), OptimizeGlob(Codes("ä ☠ å")))| == 1
  {
    TestRowHeads();
    var rows := TestRows();
    var u := Codes("ä ☠ å");
    assert u == [0xE4, 0x20, 0x2620, 0x20, 0xE5];
    assert rows[1][..5] == u && rows[0][..1] != u[..1];
    CountSelected(rows, u, [false, true, false, false, false, false]);
  }

  /** The empty prefix selects all 6 rows (test/engine-test.py:881-886). */
  lemma TestRowCountAll()
    ensures |SelectRange(TestRows(), OptimizeGlob([]))| == 6
  {
    CountSelected(TestRows(), [], [true, true, true, true, true, true]);
  }

  /** A prefix ending in U+10FFFF selects 1 row (test/engine-test.py:889-897). */
  lemma TestRowCountMaxLast()
    ensures |SelectRange(TestRows(), OptimizeGlob([0x68, MaxCodePoint]))| == 1
  {
    TestRowHeads();
    var rows := TestRows();
    var hm := [0x68, MaxCodePoint];
    assert rows[0][..2][1] != hm[1] && rows[1][..2][0] != hm[0] && rows[5][..2][0] != hm[0];
    CountSelected(rows, hm, [false, false, true, false, false, false]);
  }

  /** A prefix made only of U+10FFFF selects 1 row (test/engine-test.py:900-908). */
  lemma TestRowCountMaxOnly()
    ensures |SelectRange(TestRows(), OptimizeGlob([MaxCodePoint, MaxCodePoint]))| == 1
  {
    TestRowHeads();
    var rows := TestRows();
    var mm := [MaxCodePoint, MaxCodePoint];
    assert rows[0][..2] != mm && rows[1][..2] != mm && rows[2] != mm && rows[5][..2] == mm;
    CountSelected(rows, mm, [false, false, false, false, false, true]);
  }
}
