/**
 * The string key under which a grid source files a cell: `"_" + x + "_" +
 * y + "_"` built from the decimal forms of the cell's minimum x and y
 * (Java's `long` to `String` conversion), ignoring z.
 */
module CellKeys {
  import opened Common

  predicate IsDigit(c: char) { '0' <= c <= '9' }

  function DigitChar(d: nat): (c: char)
    requires d < 10
    ensures IsDigit(c) && c as int - '0' as int == d
  {
    ('0' as int + d) as char
  }

  /** The decimal digits of n, most significant first, no leading zeros. */
  function NatToString(n: nat): (s: string)
    ensures |s| >= 1 && forall i :: 0 <= i < |s| ==> IsDigit(s[i])
    decreases n
  {
    if n < 10 then [DigitChar(n)] else NatToString(n / 10) + [DigitChar(n % 10)]
  }

  /** `Long.toString(n)`: a minus sign before the digits of a negative number. */
  function LongToString(n: int): string
  {
    if n < 0 then "-" + NatToString(-n) else NatToString(n)
  }

  /** Reads back a string of decimal digits. */
  function ParseNat(s: string): int
    requires forall i :: 0 <= i < |s| ==> IsDigit(s[i])
    decreases |s|
  {
    if |s| == 0 then 0 else ParseNat(s[..|s| - 1]) * 10 + (s[|s| - 1] as int - '0' as int)
  }

  /** Reads back an optionally signed decimal number. */
  function ParseLong(s: string): int
    requires |s| >= 1
    requires forall i :: 1 <= i < |s| ==> IsDigit(s[i])
    requires s[0] == '-' || IsDigit(s[0])
  {
    if s[0] == '-' then -ParseNat(s[1..]) else ParseNat(s)
  }

  lemma {:induction false} NatToStringRoundTrip(n: nat)
    ensures ParseNat(NatToString(n)) == n
    decreases n
  {
    if n >= 10 {
      var prefix := NatToString(n / 10);
      var s := NatToString(n);
      assert s[..|s| - 1] == prefix;
      NatToStringRoundTrip(n / 10);
    }
  }

  /** Java's decimal form of a long is read back as the same number. */
  lemma LongToStringRoundTrip(n: int)
    ensures |LongToString(n)| >= 1
    ensures forall i :: 1 <= i < |LongToString(n)| ==> IsDigit(LongToString(n)[i])
    ensures LongToString(n)[0] == '-' || IsDigit(LongToString(n)[0])
    ensures ParseLong(LongToString(n)) == n
    ensures '_' !in LongToString(n)
  {
    var s := LongToString(n);
    if n < 0 {
      assert s[1..] == NatToString(-n);
      NatToStringRoundTrip(-n);
    } else {
      NatToStringRoundTrip(n);
    }
  }

  /** The parts in order, each followed by the separator, after a leading separator. */
  function Joined<T>(sep: T, parts: seq<seq<T>>): seq<T>
    decreases |parts|
  {
    if |parts| == 0 then [sep] else Joined(sep, parts[..|parts| - 1]) + parts[|parts| - 1] + [sep]
  }

  /** `getCellKey` as a value: the decimal texts of x and y, each after a `_`, with a closing `_`. */
  function CellKey(x: int, y: int): string
  {
    Joined('_', [LongToString(x), LongToString(y)])
  }

  /** The key spelled out: `"_" + x + "_" + y + "_"`. */
  lemma CellKeyText(x: int, y: int)
    ensures CellKey(x, y) == "_" + LongToString(x) + "_" + LongToString(y) + "_"
  {
    var sx, sy := LongToString(x), LongToString(y);
    var parts := [sx, sy];
    assert parts[..1] == [sx];
    assert [sx][..0] == [];
    assert Joined('_', [sx]) == "_" + sx + "_";
    assert Joined('_', parts) == Joined('_', [sx]) + sy + "_";
  }

  /** `getCellKey`: start from `_` and append each of x and y followed by `_`. */
  method GetCellKey(cellMins: Vec3) returns (key: string)
    ensures key == CellKey(cellMins.x, cellMins.y)
  {
    ghost var parts := [LongToString(cellMins.x), LongToString(cellMins.y)];
    key := "_";
    for d := 0 to 2
      invariant key == Joined('_', parts[..d])
    {
      assert parts[..d + 1][..d] == parts[..d];
      key := key + LongToString(cellMins.At(d)) + "_";
    }
    assert parts[..2] == parts;
  }

  /** In `a + "_" + b` with no `_` in a, the first `_` is at index |a|. */
  lemma FirstSeparator(a: string, b: string)
    requires '_' !in a
    ensures (a + "_" + b)[|a|] == '_'
    ensures forall i :: 0 <= i < |a| ==> (a + "_" + b)[i] != '_'
  {
    var s := a + "_" + b;
    forall i | 0 <= i < |a|
      ensures s[i] != '_'
    {
      assert s[i] == a[i];
    }
  }

  /** Splitting at the first separator: two texts without `_` before it must agree. */
  lemma SplitAtSeparator(a: string, b: string, c: string, e: string)
    requires '_' !in a && '_' !in c
    requires a + "_" + b == c + "_" + e
    ensures a == c && b == e
  {
    var lhs := a + "_" + b;
    FirstSeparator(a, b);
    FirstSeparator(c, e);
    assert |a| == |c|;
    assert a == lhs[..|a|] == c;
    assert b == lhs[|a| + 1..] == e;
  }

  /** The two number texts of a key, read back from after its leading `_`. */
  lemma CellKeyParts(x: int, y: int)
    ensures CellKey(x, y)[1..] == LongToString(x) + "_" + (LongToString(y) + "_")
  {
    CellKeyText(x, y);
  }

  /**
   * Two cell minima share a key exactly when they agree in x and y: the
   * map from cell minimum to key loses nothing but z.
   */
  lemma CellKeyInjective(x1: int, y1: int, x2: int, y2: int)
    ensures CellKey(x1, y1) == CellKey(x2, y2) <==> x1 == x2 && y1 == y2
  {
    if CellKey(x1, y1) == CellKey(x2, y2) {
      LongToStringRoundTrip(x1);
      LongToStringRoundTrip(x2);
      LongToStringRoundTrip(y1);
      LongToStringRoundTrip(y2);
      CellKeyParts(x1, y1);
      CellKeyParts(x2, y2);
      SplitAtSeparator(LongToString(x1), LongToString(y1) + "_", LongToString(x2), LongToString(y2) + "_");
      var b1, b2 := LongToString(y1) + "_", LongToString(y2) + "_";
      assert LongToString(y1) == b1[..|b1| - 1] == b2[..|b2| - 1] == LongToString(y2);
    }
  }
}
