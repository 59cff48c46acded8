/** Output file names (producer.cpp, line 88): the name of file `i` is the
    output pattern with `i` substituted, in decimal, for its `%d`. Only the
    part of the printf format language that the pattern is meant to use is
    modelled: a pattern whose only `%` is a single `%d`, or one with no `%`
    at all. Any other use of `%` gives `None`. */
module Naming {

  import opened Wrappers

  function DigitChar(d: nat): (c: char)
    requires d < 10
    ensures '0' <= c <= '9'
  {
    ('0' as int + d) as char
  }

  /** The decimal numeral of `n`, most significant digit first, as `%d`
      prints it: digits only, and a leading zero only for zero itself. */
  function Decimal(n: nat): (r: string)
    ensures |r| >= 1
    ensures forall i :: 0 <= i < |r| ==> '0' <= r[i] <= '9'
    ensures r[0] == '0' <==> n == 0
  {
    if n < 10 then [DigitChar(n)]
    else
      var r := Decimal(n / 10) + [DigitChar(n % 10)];
      assert r[0] == Decimal(n / 10)[0];
      r
  }

  /** The number a string of decimal digits denotes. */
  function DecimalValue(s: string): nat
    requires forall i :: 0 <= i < |s| ==> '0' <= s[i] <= '9'
  {
    if s == [] then 0
    else DecimalValue(s[..|s| - 1]) * 10 + (s[|s| - 1] as int - '0' as int)
  }

  /** Reading back the numeral `%d` prints gives the index again. */
  lemma {:induction false} DecimalRoundTrip(n: nat)
    ensures DecimalValue(Decimal(n)) == n
  {
    if n >= 10 {
      var s := Decimal(n);
      assert s[..|s| - 1] == Decimal(n / 10);
      DecimalRoundTrip(n / 10);
    }
  }

  /** Different indices print as different numerals. */
  lemma DecimalInjective(a: nat, b: nat)
    requires Decimal(a) == Decimal(b)
    ensures a == b
  {
    DecimalRoundTrip(a);
    DecimalRoundTrip(b);
  }

  /** `pattern` holds a `%d` at offset `i` and no other `%`. */
  ghost predicate PlaceholderAt(pattern: string, i: nat)
  {
    && i + 1 < |pattern|
    && pattern[i] == '%' && pattern[i + 1] == 'd'
    && '%' !in pattern[..i] && '%' !in pattern[i + 2..]
  }

  /** The patterns the model can format: no `%` at all, or a single `%d`. */
  ghost predicate Formattable(pattern: string)
  {
    '%' !in pattern || exists i :: PlaceholderAt(pattern, i)
  }

  /** A pattern starting with a character other than `%` is formattable
      exactly when the rest of it is. */
  lemma FormattableTail(pattern: string)
    requires pattern != [] && pattern[0] != '%'
    ensures Formattable(pattern) <==> Formattable(pattern[1..])
  {
    var tail := pattern[1..];
    assert '%' in pattern <==> '%' in tail;
    forall i: nat | PlaceholderAt(tail, i)
      ensures PlaceholderAt(pattern, i + 1)
    {
      assert pattern[..i + 1] == [pattern[0]] + tail[..i];
      assert pattern[i + 3..] == tail[i + 2..];
    }
    forall i: nat | PlaceholderAt(pattern, i)
      ensures i >= 1 && PlaceholderAt(tail, i - 1)
    {
      assert pattern[..i] == [pattern[0]] + tail[..i - 1];
      assert pattern[i + 2..] == tail[i + 1..];
    }
  }

  /** A pattern starting with `%` is formattable exactly when it starts
      with its only placeholder. */
  lemma FormattableHead(pattern: string)
    requires pattern != [] && pattern[0] == '%'
    ensures Formattable(pattern) <==> PlaceholderAt(pattern, 0)
  {
    forall i: nat | PlaceholderAt(pattern, i)
      ensures i == 0
    {
    }
    assert pattern[..0] == [];
  }

  /** The file name for index `index`, free of `%` once the placeholder
      is replaced. `None` stands for a use of `%` other than a single `%d`
      (see `FormatNameDefined`). */
  function FormatName(pattern: string, index: nat): (r: Option<string>)
    ensures r.Some? ==> '%' !in r.value
  {
    if pattern == [] then Some([])
    else if pattern[0] != '%' then
      match FormatName(pattern[1..], index)
      case Some(rest) => Some([pattern[0]] + rest)
      case None => None
    else if |pattern| >= 2 && pattern[1] == 'd' && '%' !in pattern[2..] then
      Some(Decimal(index) + pattern[2..])
    else None
  }

  /** A name is produced exactly for the formattable patterns. */
  lemma {:induction false} FormatNameDefined(pattern: string, index: nat)
    ensures FormatName(pattern, index).Some? <==> Formattable(pattern)
  {
    if pattern == [] {
    } else if pattern[0] != '%' {
      FormattableTail(pattern);
      FormatNameDefined(pattern[1..], index);
    } else {
      FormattableHead(pattern);
      assert pattern[..0] == [];
    }
  }

  /** A pattern `before + "%d" + after` with no other `%` names file `index`
      `before + Decimal(index) + after`. */
  lemma {:induction false} FormatNameSubstitutes(before: string, after: string, index: nat)
    requires '%' !in before && '%' !in after
    ensures FormatName(before + "%d" + after, index) == Some(before + Decimal(index) + after)
  {
    var pattern := before + "%d" + after;
    if before == [] {
      assert pattern == "%d" + after;
      assert pattern[0] == '%' && pattern[1] == 'd' && pattern[2..] == after;
      assert '%' !in pattern[2..];
      assert FormatName(pattern, index) == Some(Decimal(index) + after);
      assert before + Decimal(index) + after == Decimal(index) + after;
    } else {
      assert pattern[1..] == before[1..] + "%d" + after;
      FormatNameSubstitutes(before[1..], after, index);
      assert [before[0]] + (before[1..] + Decimal(index) + after) == before + Decimal(index) + after;
    }
  }

  /** A pattern without `%` names every file the same: the pattern itself. */
  lemma {:induction false} FormatNameWithoutPlaceholder(pattern: string, index: nat)
    requires '%' !in pattern
    ensures FormatName(pattern, index) == Some(pattern)
  {
    if pattern != [] {
      assert '%' !in pattern[1..];
      FormatNameWithoutPlaceholder(pattern[1..], index);
      assert [pattern[0]] + pattern[1..] == pattern;
    }
  }

  /** A pattern that contains `%` and can be formatted gives every index its
      own name. */
  lemma {:induction false} FormatNameDistinct(pattern: string, i: nat, j: nat)
    requires '%' in pattern
    requires FormatName(pattern, i).Some? && FormatName(pattern, j).Some?
    requires FormatName(pattern, i) == FormatName(pattern, j)
    ensures i == j
  {
    if pattern[0] != '%' {
      assert '%' in pattern[1..];
      var a, b := FormatName(pattern[1..], i).value, FormatName(pattern[1..], j).value;
      assert ([pattern[0]] + a)[1..] == a && ([pattern[0]] + b)[1..] == b;
      FormatNameDistinct(pattern[1..], i, j);
    } else {
      var after := pattern[2..];
      var a, b := Decimal(i) + after, Decimal(j) + after;
      assert a[..|Decimal(i)|] == Decimal(i) && b[..|Decimal(j)|] == Decimal(j);
      DecimalInjective(i, j);
    }
  }

  /** The names of the first three files under the default pattern. */
  lemma DefaultPatternNames()
    ensures FormatName("file_%d.dat", 0) == Some("file_0.dat")
    ensures FormatName("file_%d.dat", 1) == Some("file_1.dat")
    ensures FormatName("file_%d.dat", 2) == Some("file_2.dat")
  {
    assert "file_%d.dat" == "file_" + "%d" + ".dat";
    FormatNameSubstitutes("file_", ".dat", 0);
    FormatNameSubstitutes("file_", ".dat", 1);
    FormatNameSubstitutes("file_", ".dat", 2);
    assert Decimal(0) == "0" && Decimal(1) == "1" && Decimal(2) == "2";
    assert "file_" + "0" + ".dat" == "file_0.dat";
    assert "file_" + "1" + ".dat" == "file_1.dat";
    assert "file_" + "2" + ".dat" == "file_2.dat";
  }
}
