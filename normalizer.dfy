/** Price normalisation: raw price text to a canonical decimal string. */
module Normalizer {
  import opened Outcomes
  import opened Text
  import opened Patterns

  /** The price reported when no text could be found or parsed. */
  const Sentinel := "0.0"

  /** `price_text.replace('R$', '').replace('$', '').strip()`. */
  function StripCurrency(s: string): (r: string)
    ensures '$' !in r
    ensures r != [] ==> !IsSpace(r[0]) && !IsSpace(r[|r| - 1])
  {
    var t := RemoveAll(RemoveAll(s, "R$"), "$");
    RemoveCharGone(RemoveAll(s, "R$"), '$');
    StripKeepsAbsent(t, '$');
    Strip(t)
  }

  /** The locale rule: with both ',' and '.' present, '.' groups thousands and
      ',' is the decimal mark; with ',' alone it is the decimal mark; text
      without ',' is kept as it is. */
  function UnifySeparators(s: string): (r: string)
    ensures ',' !in r
    ensures ',' !in s ==> r == s
  {
    if ',' in s && '.' in s then ReplaceChar(RemoveAll(s, "."), ',', '.')
    else if ',' in s then ReplaceChar(s, ',', '.')
    else s
  }

  /** The first match of `\d+\.\d+|\d+`, or the sentinel when there is none. */
  function LeadingNumber(s: string): string {
    match FirstGroup(CanonicalNumber, s)
    case Some(t) => t
    case None => Sentinel
  }

  /** The text the number is taken from: currency markers and surrounding
      whitespace removed, separators unified. */
  function Converted(raw: string): string {
    UnifySeparators(StripCurrency(raw))
  }

  /** The whole normaliser: the first number of the converted text. */
  function NormalizePrice(raw: string): string {
    LeadingNumber(Converted(raw))
  }

  lemma SentinelIsCanonical()
    ensures IsCanonical(Sentinel)
  {
    assert AllDigits(Sentinel, 0, 1) && AllDigits(Sentinel, 2, 3) && IsSeparator(Sentinel[1], false);
  }

  /** The conversion steps delete or replace only non-digits. */
  lemma ConvertedKeepsDigits(raw: string)
    ensures Digits(Converted(raw)) == Digits(raw)
  {
    var s1 := RemoveAll(raw, "R$");
    var s2 := RemoveAll(s1, "$");
    var s3 := Strip(s2);
    assert !ContainsDigit("R$") && !ContainsDigit("$") && !ContainsDigit(".") by {
      assert !IsDigit("R$"[0]) && !IsDigit("R$"[1]);
    }
    RemoveAllKeepsDigits(raw, "R$");
    RemoveAllKeepsDigits(s1, "$");
    StripKeepsDigits(s2);
    if ',' in s3 && '.' in s3 {
      RemoveAllKeepsDigits(s3, ".");
      ReplaceCharKeepsDigits(RemoveAll(s3, "."), ',', '.');
    } else if ',' in s3 {
      ReplaceCharKeepsDigits(s3, ',', '.');
    }
  }

  /** The converted text has a digit exactly when the raw text has one. */
  lemma ConvertedHasDigitIff(raw: string)
    ensures ContainsDigit(Converted(raw)) <==> ContainsDigit(raw)
  {
    ConvertedKeepsDigits(raw);
    DigitsEmptyIff(raw);
    DigitsEmptyIff(Converted(raw));
  }

  /** The normaliser always yields a canonical number: either the leftmost,
      longest match of `\d+\.\d+|\d+` in the converted text, which exists
      exactly when the raw text has a digit, or the sentinel "0.0" when the
      raw text has no digit. */
  lemma NormalizePriceSpec(raw: string)
    ensures IsCanonical(NormalizePrice(raw))
    ensures !ContainsDigit(raw) ==> NormalizePrice(raw) == Sentinel
    ensures ContainsDigit(raw) ==>
              exists p, b :: IsLeftmostLongest(CanonicalNumber, Converted(raw), p, p, b)
                             && NormalizePrice(raw) == Converted(raw)[p..b]
  {
    var s := Converted(raw);
    ConvertedHasDigitIff(raw);
    NumberFoundIffDigit(CanonicalNumber, s);
    FindFirstIsLeftmostLongest(CanonicalNumber, s);
    match FindFirst(CanonicalNumber, s, 0)
    case Some(h) =>
      MatchAtSound(CanonicalNumber, s, h.at);
      CanonicalGroup(s, h.at, h.group.end);
    case None =>
      SentinelIsCanonical();
  }

  /** A currency marker "R$" is deleted whole, its 'R' included, and what
      surrounds it is then stripped. */
  lemma StripCurrencyMarker(a: string, b: string)
    requires '$' !in a && 'R' !in b && '$' !in b
    ensures StripCurrency(a + "R$" + b) == Strip(a + b)
  {
    RemoveMarkerSplit(a, b);
    assert '$' !in a + b by {
      forall i | 0 <= i < |a + b| ensures (a + b)[i] != '$' {
        if i < |a| {
          assert (a + b)[i] == a[i];
        } else {
          assert (a + b)[i] == b[i - |a|];
        }
      }
    }
    RemoveAllAbsent(a + b, "$");
  }

  /** Text without 'R', '$' or surrounding whitespace has no currency
      marker to strip. */
  lemma StripCurrencyKeeps(s: string)
    requires 'R' !in s && '$' !in s
    requires s == [] || (!IsSpace(s[0]) && !IsSpace(s[|s| - 1]))
    ensures StripCurrency(s) == s
  {
    RemoveAllAbsent(s, "R$");
    RemoveAllAbsent(s, "$");
    StripKeepsPlain(s);
  }

  /** When the converted text is a canonical number, that number is the result. */
  lemma NormalizeConvertedCanonical(raw: string)
    requires IsCanonical(Converted(raw))
    ensures NormalizePrice(raw) == Converted(raw)
  {
    CanonicalFindsItself(Converted(raw));
  }

  /** A canonical number is its own normal form. */
  lemma NormalizeCanonical(t: string)
    requires IsCanonical(t)
    ensures NormalizePrice(t) == t
  {
    CanonicalShape(t);
    StripCurrencyKeeps(t);
    NormalizeConvertedCanonical(t);
  }

  /** Normalising twice is normalising once. */
  lemma NormalizePriceIdempotent(raw: string)
    ensures NormalizePrice(NormalizePrice(raw)) == NormalizePrice(raw)
  {
    NormalizePriceSpec(raw);
    NormalizeCanonical(NormalizePrice(raw));
  }

  /** Text without a separator. */
  predicate NoSeparator(s: string) {
    ',' !in s && '.' !in s
  }

  /** Replacing the one comma of a text is putting a point in its place. */
  lemma ReplaceCommaSplit(x: string, c: string)
    requires ',' !in x && ',' !in c
    ensures ReplaceChar(x + [','] + c, ',', '.') == x + ['.'] + c
  {
    var s := x + [','] + c;
    forall i | 0 <= i < |s| ensures ReplaceChar(s, ',', '.')[i] == (x + ['.'] + c)[i] {
      if i < |x| {
        assert s[i] == x[i];
      } else if i > |x| {
        assert s[i] == c[i - |x| - 1];
      }
    }
  }

  /** A decimal comma alone, as in "123,45", becomes the decimal point. */
  lemma UnifyDecimalComma(a: string, b: string)
    requires NoSeparator(a) && NoSeparator(b)
    ensures UnifySeparators(a + [','] + b) == a + ['.'] + b
  {
    var s := a + [','] + b;
    assert s[|a|] == ',';
    assert '.' !in s by {
      forall i | 0 <= i < |s| ensures s[i] != '.' {
        if i < |a| {
          assert s[i] == a[i];
        } else if i > |a| {
          assert s[i] == b[i - |a| - 1];
        }
      }
    }
    ReplaceCommaSplit(a, b);
  }

  /** A thousands point followed by a decimal comma, as in "1.234,56": the
      point is deleted and the comma becomes the decimal point. */
  lemma UnifyGrouped(a: string, b: string, c: string)
    requires NoSeparator(a) && NoSeparator(b) && NoSeparator(c)
    ensures UnifySeparators(a + ['.'] + b + [','] + c) == a + b + ['.'] + c
  {
    var tail := b + [','] + c;
    var s := a + ['.'] + b + [','] + c;
    assert s == a + ['.'] + tail;
    assert s[|a|] == '.' && s[|a| + 1 + |b|] == ',';
    assert '.' !in tail by {
      forall i | 0 <= i < |tail| ensures tail[i] != '.' {
        if i < |b| {
          assert tail[i] == b[i];
        } else if i > |b| {
          assert tail[i] == c[i - |b| - 1];
        }
      }
    }
    RemoveCharSplit(a, '.', tail);
    assert a + tail == (a + b) + [','] + c;
    ReplaceCommaSplit(a + b, c);
  }

  // The examples below are split into one small fact per lemma: a proof
  // about string literals stays cheap only with nothing else in scope.

  lemma ThousandsUnmarked()
    ensures StripCurrency("1.234,56") == "1.234,56"
  {
    StripCurrencyKeeps("1.234,56");
  }

  lemma ThousandsShape()
    ensures "1.234,56" == "1" + ['.'] + "234" + [','] + "56"
    ensures NoSeparator("1") && NoSeparator("234") && NoSeparator("56")
    ensures "1" + "234" + ['.'] + "56" == "1234.56"
  {
  }

  lemma Canonical1234()
    ensures IsCanonical("1234.56")
  {
    assert AllDigits("1234.56", 0, 4) && AllDigits("1234.56", 5, 7) && IsSeparator("1234.56"[4], false);
  }

  lemma ThousandsConverted()
    ensures Converted("1.234,56") == "1234.56"
  {
    ThousandsUnmarked();
    ThousandsShape();
    UnifyGrouped("1", "234", "56");
  }

  /** Brazilian thousands grouping: the dot is dropped and the comma becomes
      the decimal point. */
  lemma NormalizeThousands()
    ensures NormalizePrice("1.234,56") == "1234.56"
  {
    ThousandsConverted();
    Canonical1234();
    NormalizeConvertedCanonical("1.234,56");
  }

  lemma DecimalCommaUnmarked()
    ensures StripCurrency("123,45") == "123,45"
  {
    StripCurrencyKeeps("123,45");
  }

  lemma DecimalCommaShape()
    ensures "123,45" == "123" + [','] + "45"
    ensures NoSeparator("123") && NoSeparator("45")
    ensures "123" + ['.'] + "45" == "123.45"
  {
  }

  lemma Canonical123()
    ensures IsCanonical("123.45")
  {
    assert AllDigits("123.45", 0, 3) && AllDigits("123.45", 4, 6) && IsSeparator("123.45"[3], false);
  }

  lemma DecimalCommaConverted()
    ensures Converted("123,45") == "123.45"
  {
    DecimalCommaUnmarked();
    DecimalCommaShape();
    UnifyDecimalComma("123", "45");
  }

  /** A decimal comma alone becomes the decimal point. */
  lemma NormalizeDecimalComma()
    ensures NormalizePrice("123,45") == "123.45"
  {
    DecimalCommaConverted();
    Canonical123();
    NormalizeConvertedCanonical("123,45");
  }

  lemma CurrencyPrefixSplit()
    ensures "R$" <= "R$ 45.10" && "R$ 45.10"[2..] == " 45.10" && 'R' !in " 45.10" && '$' !in " 45.10"
  {
  }

  lemma CurrencyPrefixRemoved()
    ensures RemoveAll(RemoveAll("R$ 45.10", "R$"), "$") == " 45.10"
  {
    CurrencyPrefixSplit();
    RemoveAllAbsent(" 45.10", "R$");
    RemoveAllAbsent(" 45.10", "$");
  }

  lemma LeadingSpaceSplit()
    ensures " 45.10" == [' '] + "45.10" && IsSpace(' ')
  {
  }

  lemma PlainPrice()
    ensures Strip("45.10") == "45.10"
  {
    StripKeepsPlain("45.10");
  }

  lemma LeadingSpaceStripped()
    ensures Strip(" 45.10") == "45.10"
  {
    LeadingSpaceSplit();
    StripLeadingSpace(' ', "45.10");
    PlainPrice();
  }

  lemma CurrencyPrefixNoComma()
    ensures ',' !in "45.10"
  {
  }

  lemma CurrencyPrefixConverted()
    ensures Converted("R$ 45.10") == "45.10"
  {
    CurrencyPrefixRemoved();
    LeadingSpaceStripped();
    CurrencyPrefixNoComma();
  }

  lemma Canonical45()
    ensures IsCanonical("45.10")
  {
    assert AllDigits("45.10", 0, 2) && AllDigits("45.10", 3, 5) && IsSeparator("45.10"[2], false);
  }

  /** The currency prefix and the space after it are removed. */
  lemma NormalizeCurrencyPrefix()
    ensures NormalizePrice("R$ 45.10") == "45.10"
  {
    CurrencyPrefixConverted();
    Canonical45();
    NormalizeConvertedCanonical("R$ 45.10");
  }

  /** Text without digits normalises to the sentinel. */
  lemma NormalizeNoDigits(raw: string)
    requires !ContainsDigit(raw)
    ensures NormalizePrice(raw) == Sentinel
  {
    NormalizePriceSpec(raw);
  }

  /** A worked example: words without digits give the sentinel. */
  lemma NormalizeWords()
    ensures NormalizePrice("no digits here") == Sentinel
  {
    var words := "no digits here";
    assert !ContainsDigit(words) by {
      forall i | 0 <= i < |words| ensures !IsDigit(words[i]) { }
    }
    NormalizeNoDigits(words);
  }
}
