/**
 * Worked renderings of the amount printer, including the behaviours that follow
 * from the grouping test as written: the sign counted as an integer character,
 * and grouping sizes below 3 that do not group conventionally.
 */
module AmountExamples {

  import opened AmountStyles
  import opened AmountPrinting

  /** Grouping by 3 with ',' and '.', no forced point. */
  const Comma3 := ResolvedStyle('0', '.', ',', 3, true, false)

  /** An integer part of at most 3 characters is never grouped, whatever the grouping size. */
  lemma ShortIntegerPartNeverGrouped(s: string, size: GroupingSize, sep: char)
    requires |s| <= 3
    ensures Grouped(s, 0, size, sep) == s
  {
    forall p | 0 < p <= |s| ensures !SeparatorFollows(p, size) {}
    GroupedWithoutSeparators(s, 0, size, sep);
  }

  /** Four integer characters grouped by 3: one separator, after the first. */
  lemma FourCharactersBy3(s: string, sep: char)
    requires |s| == 4
    ensures Grouped(s, 0, 3, sep) == [s[0], sep, s[1], s[2], s[3]]
  {
    ShortIntegerPartNeverGrouped(s[1..], 3, sep);
  }

  /** Seven integer characters grouped by 3: separators after the first and the fourth. */
  lemma SevenCharactersBy3(s: string, sep: char)
    requires |s| == 7
    ensures Grouped(s, 0, 3, sep) == [s[0], sep, s[1], s[2], s[3], sep, s[4], s[5], s[6]]
  {
    FourCharactersBy3(s[3..], sep);
    assert s[3..][0] == s[3] && s[3..][1..] == s[4..];
    assert Grouped(s[2..], 0, 3, sep) == [s[2], s[3], sep, s[4], s[5], s[6]];
    assert Grouped(s[1..], 0, 3, sep) == [s[1], s[2], s[3], sep, s[4], s[5], s[6]];
  }

  /** Five integer characters grouped by 2: only the separator before the last four characters (`pre == 5`) is inserted. */
  lemma FiveCharactersBy2(s: string, sep: char)
    requires |s| == 5
    ensures Grouped(s, 0, 2, sep) == [s[0], sep, s[1], s[2], s[3], s[4]]
  {
    assert !SeparatorFollows(4, 2);
    ShortIntegerPartNeverGrouped(s[2..], 2, sep);
    assert Grouped(s[1..], 0, 2, sep) == [s[1], s[2], s[3], s[4]];
  }

  // The examples below take the amount as a parameter fixed by `requires plain == "..."`:
  // stated over a literal directly, the same proofs cost the verifier several times more.

  /** A worked example: seven digits grouped by 3. */
  lemma Grouping1234567By3(plain: string)
    requires plain == "1234567"
    ensures Grouped(plain, 0, 3, ',') == "1,234,567"
    ensures AmountText(Comma3, plain) == "1,234,567"
  {
    SevenCharactersBy3(plain, ',');
    assert IntegerEnd(plain) == 7;
    assert plain[..7] == plain;
  }

  lemma Grouping123By3(plain: string)
    requires plain == "123"
    ensures AmountText(Comma3, plain) == "123"
  {
    assert IntegerEnd(plain) == 3;
    assert plain[..3] == plain;
    ShortIntegerPartNeverGrouped(plain, 3, ',');
  }

  lemma GroupingWithFraction(plain: string)
    requires plain == "1234567.89"
    ensures AmountText(Comma3, plain) == "1,234,567.89"
  {
    assert plain[7] == '.' && forall j :: 0 <= j < 7 ==> plain[j] != '.';
    assert IntegerEnd(plain) == 7;
    assert PointAndFraction('.', false, plain) == ['.'] + plain[8..];
    SevenCharactersBy3(plain[..7], ',');
  }

  lemma ForcedDecimalPoint(plain: string)
    requires plain == "1234"
    ensures AmountText(Comma3.(forceDecimalPoint := true), plain) == "1,234."
  {
    assert IntegerEnd(plain) == 4;
    assert plain[..4] == plain;
    FourCharactersBy3(plain, ',');
  }

  /** The '-' of a negative amount counts as an integer character and is grouped like a digit. */
  lemma SignCountsAsIntegerCharacter(plain: string)
    requires plain == "-123"
    ensures AmountText(Comma3, plain) == "-,123"
  {
    assert IntegerEnd(plain) == 4;
    assert plain[..4] == plain;
    FourCharactersBy3(plain, ',');
  }

  /** Size 2 leaves out the separator before the last two characters (`pre == 3`): "123" is not grouped at all. */
  lemma GroupingSize2SkipsFirstBoundary(plain: string)
    requires plain == "123"
    ensures AmountText(Comma3.(groupingSize := 2), plain) == "123"
    ensures GroupedFromRight(plain, 2, ',') == "1,23"
  {
    assert IntegerEnd(plain) == 3;
    assert plain[..3] == plain;
    ShortIntegerPartNeverGrouped(plain, 2, ',');
    assert plain[..1] == "1" && plain[1..] == "23";
  }

  /** Size 2 on five characters: only the first boundary past 3 fires. */
  lemma GroupingSize2OnFiveCharacters(plain: string)
    requires plain == "12345"
    ensures AmountText(Comma3.(groupingSize := 2), plain) == "1,2345"
  {
    assert IntegerEnd(plain) == 5;
    assert plain[..5] == plain;
    FiveCharactersBy2(plain, ',');
  }

  /** Size 1 never groups: `pre % 1` is always 0. */
  lemma GroupingSize1NeverGroups(s: string)
    ensures Grouped(s, 0, 1, ',') == s
  {
    forall p | 0 < p <= |s| ensures !SeparatorFollows(p, 1) {}
    GroupedWithoutSeparators(s, 0, 1, ',');
  }
}
