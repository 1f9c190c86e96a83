/**
 * The amount printer: renders the plain decimal string of a money amount with the
 * resolved style's decimal-point character and, when grouping is enabled, grouping
 * characters inserted into the integer part.
 *
 * The grouping test is kept exactly as the printer applies it: after a character
 * with `pre` characters of the integer part still to print (itself included), a
 * separator follows when `pre > 3` and `pre % groupingSize == 1`. The `3` is a
 * literal, not the grouping size, and a leading '-' counts as an integer character.
 */
module AmountPrinting {

  import opened Numerals
  import opened AmountStyles
  import opened Currencies

  /** The first position of `c` in `s`, or -1 when `c` does not occur. */
  function IndexOf(s: string, c: char): (r: int)
    ensures -1 <= r < |s|
    ensures r == -1 <==> c !in s
    ensures r >= 0 ==> s[r] == c && forall j :: 0 <= j < r ==> s[j] != c
  {
    if s == [] then -1
    else if s[0] == c then 0
    else
      var r := IndexOf(s[1..], c);
      if r < 0 then -1 else r + 1
  }

  /** Where the integer part of a plain decimal string ends: at its '.', or at its end. */
  function IntegerEnd(plain: string): (n: nat)
    ensures n <= |plain|
    ensures '.' !in plain[..n]
    ensures n < |plain| ==> plain[n] == '.'
  {
    var decPoint := IndexOf(plain, '.');
    if decPoint < 0 then |plain| else decPoint
  }

  /** The grouping test, as written: `pre` counts the character itself. */
  predicate SeparatorFollows(pre: int, size: GroupingSize) {
    pre > 3 && pre % size == 1
  }

  /**
   * The grouped rendering of the integer characters `s`, which are followed by
   * `tail` further integer characters: each character, then a separator when the
   * grouping test holds for the number of characters remaining from it.
   */
  function Grouped(s: string, tail: nat, size: GroupingSize, sep: char): string
    decreases |s|
  {
    if s == [] then []
    else [s[0]] + (if SeparatorFollows(|s| + tail, size) then [sep] else []) + Grouped(s[1..], tail, size, sep)
  }

  /** What follows the integer part: the decimal point and fraction, a forced bare point, or nothing. */
  function PointAndFraction(point: char, force: bool, plain: string): string {
    var decPoint := IndexOf(plain, '.');
    if decPoint >= 0 then [point] + plain[decPoint + 1..]
    else if force then [point]
    else []
  }

  /** The text the amount printer appends for the plain decimal string `plain`. */
  function AmountText(style: ResolvedStyle, plain: string): string {
    var decPoint := IndexOf(plain, '.');
    if style.grouping then
      Grouped(plain[..IntegerEnd(plain)], 0, style.groupingSize, style.groupingCharacter) + PointAndFraction(style.decimalPointCharacter, style.forceDecimalPoint, plain)
    else if decPoint < 0 then
      if style.forceDecimalPoint then plain + [style.decimalPointCharacter] else plain
    else
      plain[..decPoint] + [style.decimalPointCharacter] + plain[decPoint + 1..]
  }

  /**
   * The amount printer: the style is localized for this call only, the integer part
   * is grouped or copied, then the decimal point and fraction, a forced bare point,
   * or nothing follows.
   */
  method PrintAmount(style: AmountStyle, symbols: DecimalSymbols, plain: string) returns (text: string)
    ensures text == AmountText(Localize(style, symbols), plain)
  {
    var resolved := Localize(style, symbols);
    var str := plain;
    var decPoint := IndexOf(str, '.');
    var pre := if decPoint < 0 then |str| else decPoint;
    assert pre == IntegerEnd(str);
    ghost var tail := PointAndFraction(resolved.decimalPointCharacter, resolved.forceDecimalPoint, str);
    if resolved.grouping {
      text := AppendGroupedInteger(str, pre, resolved.groupingSize, resolved.groupingCharacter);
      ghost var integerText := text;
      if decPoint >= 0 {
        text := text + [resolved.decimalPointCharacter] + str[decPoint + 1..];
      } else if resolved.forceDecimalPoint {
        text := text + [resolved.decimalPointCharacter];
      }
      assert text == integerText + tail;
      assert text == AmountText(resolved, str) by { AmountTextShape(resolved, str); }
    } else {
      if decPoint < 0 {
        assert str[..pre] == str;
        if resolved.forceDecimalPoint {
          text := str + [resolved.decimalPointCharacter];
        } else {
          text := str;
        }
      } else {
        text := str[..decPoint] + [resolved.decimalPointCharacter] + str[decPoint + 1..];
      }
      assert text == str[..pre] + tail;
      assert text == AmountText(resolved, str) by { AmountTextShape(resolved, str); }
    }
  }

  /**
   * The grouping loop: copies the first `intLength` characters of `str` one by one,
   * with `i` the position read and `pre` the number of integer characters still to
   * print, appending the separator after a character when the test fires.
   */
  method AppendGroupedInteger(str: string, intLength: nat, groupingSize: GroupingSize, groupingChar: char)
    returns (text: string)
    requires intLength <= |str|
    ensures text == Grouped(str[..intLength], 0, groupingSize, groupingChar)
  {
    ghost var intPart := str[..intLength];
    text := [];
    var pre, i := intLength, 0;
    while pre > 0
      invariant 0 <= i <= |intPart| && pre == |intPart| - i
      invariant text == Grouped(intPart[..i], pre, groupingSize, groupingChar)
    {
      GroupedStep(intPart, i, groupingSize, groupingChar);
      text := text + [str[i]];
      if pre > 3 && pre % groupingSize == 1 {
        text := text + [groupingChar];
      }
      i, pre := i + 1, pre - 1;
    }
    assert intPart[..i] == intPart;
  }

  /**
   * With or without grouping, the amount is its integer part (grouped or copied)
   * followed by the point and fraction, a forced bare point, or nothing.
   */
  lemma AmountTextShape(style: ResolvedStyle, plain: string)
    ensures var n := IntegerEnd(plain);
      AmountText(style, plain) ==
        (if style.grouping then Grouped(plain[..n], 0, style.groupingSize, style.groupingCharacter) else plain[..n])
        + PointAndFraction(style.decimalPointCharacter, style.forceDecimalPoint, plain)
  {
    if !style.grouping && '.' !in plain {
      assert plain[..|plain|] == plain;
    }
  }

  /** One turn of the printer's loop: the next character, then a separator if the test fires. */
  lemma GroupedStep(s: string, i: nat, size: GroupingSize, sep: char)
    requires i < |s|
    ensures Grouped(s[..i + 1], |s| - i - 1, size, sep)
         == Grouped(s[..i], |s| - i, size, sep) + [s[i]] + (if SeparatorFollows(|s| - i, size) then [sep] else [])
  {
    assert s[..i + 1] == s[..i] + [s[i]];
    GroupedAppend(s[..i], [s[i]], |s| - i - 1, size, sep);
  }

  // ---------------------------------------------------------------------------
  // Grouping of the integer part

  /** Grouping a concatenation: the characters of `a` see `b`'s characters as still to come. */
  lemma {:induction false} GroupedAppend(a: string, b: string, tail: nat, size: GroupingSize, sep: char)
    ensures Grouped(a + b, tail, size, sep) == Grouped(a, |b| + tail, size, sep) + Grouped(b, tail, size, sep)
    decreases |a|
  {
    if a != [] {
      assert (a + b)[1..] == a[1..] + b;
      GroupedAppend(a[1..], b, tail, size, sep);
    } else {
      assert a + b == b;
    }
  }

  /** The last character of a grouped integer part is its last digit: no separator trails it. */
  lemma GroupedEndsWithLastCharacter(s: string, size: GroupingSize, sep: char)
    requires |s| > 0
    ensures var g := Grouped(s, 0, size, sep); |g| > 0 && g[|g| - 1] == s[|s| - 1]
  {
    var n := |s|;
    assert s == s[..n - 1] + [s[n - 1]];
    GroupedAppend(s[..n - 1], [s[n - 1]], 0, size, sep);
    assert Grouped([s[n - 1]], 0, size, sep) == [s[n - 1]];
  }

  /** Deleting every `c` from `s`. */
  function Strip(s: string, c: char): string {
    if s == [] then [] else (if s[0] == c then [] else [s[0]]) + Strip(s[1..], c)
  }

  lemma {:induction false} StripAppend(a: string, b: string, c: char)
    ensures Strip(a + b, c) == Strip(a, c) + Strip(b, c)
    decreases |a|
  {
    if a != [] {
      assert (a + b)[1..] == a[1..] + b;
      StripAppend(a[1..], b, c);
    } else {
      assert a + b == b;
    }
  }

  lemma {:induction false} StripAbsent(s: string, c: char)
    requires c !in s
    ensures Strip(s, c) == s
    decreases |s|
  {
    if s != [] {
      StripAbsent(s[1..], c);
    }
  }

  /** Deleting the separators from a grouped integer part gives the integer part back. */
  lemma {:induction false} StripGrouped(s: string, tail: nat, size: GroupingSize, sep: char)
    requires sep !in s
    ensures Strip(Grouped(s, tail, size, sep), sep) == s
    decreases |s|
  {
    if s != [] {
      var rest := Grouped(s[1..], tail, size, sep);
      StripGrouped(s[1..], tail, size, sep);
      if SeparatorFollows(|s| + tail, size) {
        StripAppend([s[0], sep], rest, sep);
        assert Strip([s[0], sep], sep) == [s[0]];
      } else {
        StripAppend([s[0]], rest, sep);
      }
      assert s == [s[0]] + s[1..];
    }
  }

  /**
   * An independent reference: grouping from the right, one separator before
   * every full group of `size` trailing characters, as long as characters precede it.
   */
  function GroupedFromRight(s: string, size: GroupingSize, sep: char): string
    decreases |s|
  {
    if |s| <= size then s
    else GroupedFromRight(s[..|s| - size], size, sep) + [sep] + s[|s| - size..]
  }

  lemma MulAtLeast(d: int, m: int)
    requires d > 0 && m > 0
    ensures d * m >= m
  {}

  /** The remainder is determined by any decomposition `x == k * m + r` with `0 <= r < m`. */
  lemma ModUnique(x: int, m: int, k: int, r: int)
    requires m > 0 && 0 <= r < m && x == k * m + r
    ensures x % m == r
  {
    var q, s := x / m, x % m;
    assert x == q * m + s;
    var d := k - q;
    assert d * m == s - r;
    if d > 0 {
      MulAtLeast(d, m);
    } else if d < 0 {
      MulAtLeast(-d, m);
    }
  }

  lemma ModShift(p: int, size: GroupingSize)
    ensures (p + size) % size == p % size
  {
    ModUnique(p + size, size, p / size + 1, p % size);
  }

  /** Within one group's worth of characters the test never fires, for sizes of 3 and more. */
  lemma NoSeparatorWithinOneGroup(p: int, size: GroupingSize)
    requires size >= 3 && 0 < p <= size
    ensures !SeparatorFollows(p, size)
  {
    if p < size {
      ModUnique(p, size, 0, p);
    } else {
      ModUnique(p, size, 1, 0);
    }
  }

  lemma {:induction false} GroupedWithoutSeparators(s: string, tail: nat, size: GroupingSize, sep: char)
    requires forall p :: tail < p <= tail + |s| ==> !SeparatorFollows(p, size)
    ensures Grouped(s, tail, size, sep) == s
    decreases |s|
  {
    if s != [] {
      GroupedWithoutSeparators(s[1..], tail, size, sep);
      assert !SeparatorFollows(|s| + tail, size);
      assert s == [s[0]] + s[1..];
    }
  }

  /** With a grouping size of at least 3, a group's worth of following characters adds exactly one trailing separator. */
  lemma {:induction false} GroupedBeforeFullGroup(a: string, size: GroupingSize, sep: char)
    requires size >= 3 && |a| > 0
    ensures Grouped(a, size, size, sep) == Grouped(a, 0, size, sep) + [sep]
    decreases |a|
  {
    var p := |a|;
    ModShift(p, size);
    if p == 1 {
      ModUnique(1 + size, size, 1, 1);
      assert SeparatorFollows(p + size, size);
      assert !SeparatorFollows(p, size);
    } else {
      assert SeparatorFollows(p + size, size) == SeparatorFollows(p, size);
      GroupedBeforeFullGroup(a[1..], size, sep);
    }
  }

  /**
   * For grouping sizes of 3 and more the printer's left-to-right test produces
   * exactly the conventional grouping from the right.
   */
  lemma {:induction false} GroupedMatchesGroupingFromRight(s: string, size: GroupingSize, sep: char)
    requires size >= 3
    ensures Grouped(s, 0, size, sep) == GroupedFromRight(s, size, sep)
    decreases |s|
  {
    if |s| <= size {
      forall p | 0 < p <= |s| ensures !SeparatorFollows(p, size) {
        NoSeparatorWithinOneGroup(p, size);
      }
      GroupedWithoutSeparators(s, 0, size, sep);
    } else {
      var a, b := s[..|s| - size], s[|s| - size..];
      assert s == a + b;
      GroupedAppend(a, b, 0, size, sep);
      forall p | 0 < p <= |b| ensures !SeparatorFollows(p, size) {
        NoSeparatorWithinOneGroup(p, size);
      }
      GroupedWithoutSeparators(b, 0, size, sep);
      GroupedBeforeFullGroup(a, size, sep);
      GroupedMatchesGroupingFromRight(a, size, sep);
    }
  }

  // ---------------------------------------------------------------------------
  // The whole amount

  /**
   * Without grouping the plain string is copied with its '.' (if any) replaced by the
   * decimal-point character; without a '.', the point is appended only when forced.
   */
  lemma UngroupedAmount(style: ResolvedStyle, plain: string)
    requires !style.grouping
    ensures var text := AmountText(style, plain);
      if '.' in plain then
        var decPoint := IndexOf(plain, '.');
        |text| == |plain| && text[decPoint] == style.decimalPointCharacter &&
        forall k :: 0 <= k < |plain| && k != decPoint ==> text[k] == plain[k]
      else
        text == if style.forceDecimalPoint then plain + [style.decimalPointCharacter] else plain
  {
    if '.' in plain {
      var decPoint := IndexOf(plain, '.');
      var text := AmountText(style, plain);
      assert text == plain[..decPoint] + [style.decimalPointCharacter] + plain[decPoint + 1..];
      forall k | 0 <= k < |plain| && k != decPoint ensures text[k] == plain[k] {
        if k < decPoint {
          assert text[k] == plain[..decPoint][k];
        } else {
          assert text[k] == plain[decPoint + 1..][k - decPoint - 1];
        }
      }
    }
  }

  /**
   * Grouping changes only the integer part: what follows it (the decimal point and
   * the unchanged fraction, a forced bare point, or nothing) is what the ungrouped
   * printer produces after the same integer part.
   */
  lemma GroupingOnlyTouchesIntegerPart(style: ResolvedStyle, plain: string)
    requires style.grouping
    ensures var n := IntegerEnd(plain);
      var ungrouped := AmountText(style.(grouping := false), plain);
      n <= |ungrouped| && ungrouped[..n] == plain[..n] &&
      AmountText(style, plain) == Grouped(plain[..n], 0, style.groupingSize, style.groupingCharacter) + ungrouped[n..]
  {
    var n := IntegerEnd(plain);
    var tail := PointAndFraction(style.decimalPointCharacter, style.forceDecimalPoint, plain);
    AmountTextShape(style, plain);
    AmountTextShape(style.(grouping := false), plain);
    assert AmountText(style.(grouping := false), plain) == plain[..n] + tail;
  }

  /** A character absent from the plain string and other than the point is absent from what follows the integer part. */
  lemma SeparatorNotInTail(style: ResolvedStyle, plain: string)
    requires style.groupingCharacter !in plain && style.groupingCharacter != style.decimalPointCharacter
    ensures style.groupingCharacter !in PointAndFraction(style.decimalPointCharacter, style.forceDecimalPoint, plain)
  {
    var decPoint := IndexOf(plain, '.');
    if decPoint >= 0 {
      assert plain == plain[..decPoint + 1] + plain[decPoint + 1..];
    }
  }

  /**
   * When the grouping character occurs neither in the plain string nor as the decimal
   * point, deleting it from the grouped output yields exactly the ungrouped output.
   */
  lemma StripGroupedAmount(style: ResolvedStyle, plain: string)
    requires style.grouping
    requires style.groupingCharacter !in plain && style.groupingCharacter != style.decimalPointCharacter
    ensures Strip(AmountText(style, plain), style.groupingCharacter) == AmountText(style.(grouping := false), plain)
  {
    var sep, n := style.groupingCharacter, IntegerEnd(plain);
    var tail := PointAndFraction(style.decimalPointCharacter, style.forceDecimalPoint, plain);
    assert plain == plain[..n] + plain[n..];
    SeparatorNotInTail(style, plain);
    StripAppend(Grouped(plain[..n], 0, style.groupingSize, sep), tail, sep);
    StripGrouped(plain[..n], 0, style.groupingSize, sep);
    StripAbsent(tail, sep);
    AmountTextShape(style, plain);
    AmountTextShape(style.(grouping := false), plain);
  }

  /** For a well-formed plain decimal, any grouping character other than a digit, '-', '.' or the decimal point is removable. */
  lemma StripGroupedPlainDecimal(style: ResolvedStyle, plain: string)
    requires style.grouping && IsPlainDecimal(plain)
    requires !IsDigit(style.groupingCharacter) && style.groupingCharacter !in {'-', '.', style.decimalPointCharacter}
    ensures Strip(AmountText(style, plain), style.groupingCharacter) == AmountText(style.(grouping := false), plain)
  {
    ForeignCharNotInPlainDecimal(plain, style.groupingCharacter);
    StripGroupedAmount(style, plain);
  }
}
