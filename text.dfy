/** The Python `str` operations the price pipeline relies on: digit and
    whitespace classes, `upper()`, `strip()` and `replace()`. */
module Text {

  /** An ASCII decimal digit; `\d` in the pipeline's patterns. */
  predicate IsDigit(c: char) {
    '0' <= c <= '9'
  }

  /** Python's `str.isspace()`, which is also the class `\s` matches in a
      `str` pattern: the code points CPython treats as whitespace. */
  predicate IsSpace(c: char) {
    var n := c as int;
    (9 <= n <= 13) || (28 <= n <= 32) || n == 0x85 || n == 0xA0 || n == 0x1680
    || (0x2000 <= n <= 0x200A) || n == 0x2028 || n == 0x2029 || n == 0x202F
    || n == 0x205F || n == 0x3000
  }

  predicate ContainsDigit(s: string) {
    exists i :: 0 <= i < |s| && IsDigit(s[i])
  }

  /** The digits of `s`, in order; the transformations of the normaliser keep it. */
  function Digits(s: string): string {
    if s == [] then []
    else if IsDigit(s[0]) then [s[0]] + Digits(s[1..])
    else Digits(s[1..])
  }

  lemma {:induction false} DigitsConcat(a: string, b: string)
    ensures Digits(a + b) == Digits(a) + Digits(b)
  {
    if a == [] {
      assert a + b == b;
    } else {
      assert (a + b)[0] == a[0];
      assert (a + b)[1..] == a[1..] + b;
      DigitsConcat(a[1..], b);
      if IsDigit(a[0]) {
        assert [a[0]] + (Digits(a[1..]) + Digits(b)) == ([a[0]] + Digits(a[1..])) + Digits(b);
      }
    }
  }

  /** A string has no digits exactly when its digit sequence is empty. */
  lemma {:induction false} DigitsEmptyIff(s: string)
    ensures Digits(s) == [] <==> !ContainsDigit(s)
  {
    if s != [] {
      DigitsEmptyIff(s[1..]);
      if ContainsDigit(s[1..]) {
        var i :| 0 <= i < |s[1..]| && IsDigit(s[1..][i]);
        assert IsDigit(s[i + 1]);
      }
      if ContainsDigit(s) && !IsDigit(s[0]) {
        var i :| 0 <= i < |s| && IsDigit(s[i]);
        assert IsDigit(s[1..][i - 1]);
      }
    }
  }

  /** Python's `str.upper()` restricted to ASCII letters. */
  function UpperChar(c: char): (u: char)
    ensures !('a' <= u <= 'z')
    ensures 'a' <= c <= 'z' || u == c
  {
    if 'a' <= c <= 'z' then (c as int - 32) as char else c
  }

  function Upper(s: string): (r: string)
    ensures |r| == |s|
    ensures forall i :: 0 <= i < |s| ==> r[i] == UpperChar(s[i])
  {
    seq(|s|, i requires 0 <= i < |s| => UpperChar(s[i]))
  }

  /** Upper-casing twice is upper-casing once. */
  lemma UpperIdempotent(s: string)
    ensures Upper(Upper(s)) == Upper(s)
  {
    assert forall i :: 0 <= i < |s| ==> UpperChar(UpperChar(s[i])) == UpperChar(s[i]);
  }

  /** Python's `s.replace(target, replacement)` for one-character arguments. */
  function ReplaceChar(s: string, target: char, replacement: char): (r: string)
    ensures |r| == |s|
    ensures forall i :: 0 <= i < |s| ==> r[i] == if s[i] == target then replacement else s[i]
  {
    seq(|s|, i requires 0 <= i < |s| => if s[i] == target then replacement else s[i])
  }

  /** Replacing one character by another removes it and keeps every digit
      that is not replaced. */
  lemma {:induction false} ReplaceCharKeepsDigits(s: string, target: char, replacement: char)
    requires !IsDigit(target) && !IsDigit(replacement)
    ensures Digits(ReplaceChar(s, target, replacement)) == Digits(s)
    ensures target != replacement ==> target !in ReplaceChar(s, target, replacement)
  {
    var r := ReplaceChar(s, target, replacement);
    if s != [] {
      ReplaceCharKeepsDigits(s[1..], target, replacement);
      assert r[1..] == ReplaceChar(s[1..], target, replacement);
    }
  }

  /** Python's `s.replace(pat, '')`: deletes the occurrences of `pat` found by a
      left-to-right scan that does not overlap them. */
  function RemoveAll(s: string, pat: string): string
    requires pat != []
    decreases |s|
  {
    if s == [] then []
    else if pat <= s then RemoveAll(s[|pat|..], pat)
    else [s[0]] + RemoveAll(s[1..], pat)
  }

  /** A pattern whose first character does not occur is never deleted. */
  lemma {:induction false} RemoveAllAbsent(s: string, pat: string)
    requires pat != [] && pat[0] !in s
    ensures RemoveAll(s, pat) == s
    decreases |s|
  {
    if s != [] {
      assert s[0] != pat[0];
      assert s[0] in s;
      RemoveAllAbsent(s[1..], pat);
      assert [s[0]] + s[1..] == s;
    }
  }

  /** Deleting a single character leaves none of it. */
  lemma {:induction false} RemoveCharGone(s: string, c: char)
    ensures c !in RemoveAll(s, [c])
    decreases |s|
  {
    if s != [] {
      if [c] <= s {
        RemoveCharGone(s[1..], c);
      } else {
        assert s[0] != c;
        RemoveCharGone(s[1..], c);
      }
    }
  }

  /** Deleting a digit-free pattern keeps every digit, in order. */
  lemma {:induction false} RemoveAllKeepsDigits(s: string, pat: string)
    requires pat != [] && !ContainsDigit(pat)
    ensures Digits(RemoveAll(s, pat)) == Digits(s)
    decreases |s|
  {
    if s == [] {
    } else if pat <= s {
      RemoveAllKeepsDigits(s[|pat|..], pat);
      assert s == pat + s[|pat|..];
      DigitsConcat(pat, s[|pat|..]);
      DigitsEmptyIff(pat);
    } else {
      RemoveAllKeepsDigits(s[1..], pat);
      var rest := RemoveAll(s[1..], pat);
      assert ([s[0]] + rest)[0] == s[0];
      assert ([s[0]] + rest)[1..] == rest;
    }
  }

  /** Deleting one character distributes over concatenation. */
  lemma {:induction false} RemoveCharConcat(a: string, b: string, c: char)
    ensures RemoveAll(a + b, [c]) == RemoveAll(a, [c]) + RemoveAll(b, [c])
  {
    if a == [] {
      assert a + b == b;
    } else {
      assert (a + b)[1..] == a[1..] + b;
      assert (a + b)[0] == a[0];
      RemoveCharConcat(a[1..], b, c);
      if a[0] != c {
        assert [a[0]] + (RemoveAll(a[1..], [c]) + RemoveAll(b, [c]))
            == ([a[0]] + RemoveAll(a[1..], [c])) + RemoveAll(b, [c]);
      }
    }
  }

  /** Deleting a character that occurs once removes just that occurrence. */
  lemma {:induction false} RemoveCharSplit(a: string, c: char, b: string)
    requires c !in a && c !in b
    ensures RemoveAll(a + [c] + b, [c]) == a + b
  {
    if a == [] {
      assert a + [c] + b == [c] + b;
      assert [c] <= [c] + b;
      assert ([c] + b)[1..] == b;
      RemoveAllAbsent(b, [c]);
    } else {
      assert (a + [c] + b)[0] == a[0] != c;
      assert (a + [c] + b)[1..] == a[1..] + [c] + b;
      RemoveCharSplit(a[1..], c, b);
      assert a + b == [a[0]] + (a[1..] + b);
    }
  }

  /** Deleting "R$" from a text where it occurs once, with no '$' before it
      and no 'R' or '$' after it, removes exactly that occurrence, its 'R'
      included. */
  lemma {:induction false} RemoveMarkerSplit(a: string, b: string)
    requires '$' !in a && 'R' !in b && '$' !in b
    ensures RemoveAll(a + "R$" + b, "R$") == a + b
    decreases |a|
  {
    var s := a + "R$" + b;
    if a == [] {
      assert s == "R$" + b;
      assert "R$" <= s;
      assert s[2..] == b;
      RemoveAllAbsent(b, "R$");
    } else {
      assert s[0] == a[0];
      if |a| == 1 {
        assert s[1] == 'R';
      } else {
        assert s[1] == a[1] && a[1] in a;
      }
      assert !("R$" <= s);
      assert s[1..] == a[1..] + "R$" + b;
      RemoveMarkerSplit(a[1..], b);
      assert a + b == [a[0]] + (a[1..] + b);
    }
  }

  /** Python's `s.lstrip()`. */
  function TrimStart(s: string): (r: string)
    ensures |r| <= |s| && r == s[|s| - |r|..]
    ensures forall i :: 0 <= i < |s| - |r| ==> IsSpace(s[i])
    ensures r != [] ==> !IsSpace(r[0])
  {
    if s != [] && IsSpace(s[0]) then TrimStart(s[1..]) else s
  }

  /** Python's `s.rstrip()`. */
  function TrimEnd(s: string): (r: string)
    ensures |r| <= |s| && r == s[..|r|]
    ensures forall i :: |r| <= i < |s| ==> IsSpace(s[i])
    ensures r != [] ==> !IsSpace(r[|r| - 1])
  {
    if s != [] && IsSpace(s[|s| - 1]) then TrimEnd(s[..|s| - 1]) else s
  }

  /** How many whitespace characters `s.strip()` cuts from the front of `s`. */
  function StripStart(s: string): (a: nat)
    ensures a <= |s|
  {
    |s| - |TrimStart(s)|
  }

  /** Python's `s.strip()`: the infix of `s` left once whitespace is cut from
      both ends; it neither starts nor ends with whitespace. */
  function Strip(s: string): (r: string)
    ensures StripStart(s) + |r| <= |s| && r == s[StripStart(s)..StripStart(s) + |r|]
    ensures forall i :: 0 <= i < StripStart(s) ==> IsSpace(s[i])
    ensures forall i :: StripStart(s) + |r| <= i < |s| ==> IsSpace(s[i])
    ensures r != [] ==> !IsSpace(r[0]) && !IsSpace(r[|r| - 1])
  {
    var t := TrimStart(s);
    var r := TrimEnd(t);
    assert r != [] ==> r[0] == t[0];
    r
  }

  lemma SliceKeepsAbsent(s: string, i: int, j: int, c: char)
    requires 0 <= i <= j <= |s| && c !in s
    ensures c !in s[i..j]
  {
    forall k | 0 <= k < j - i ensures s[i..j][k] != c {
      assert s[i..j][k] == s[i + k];
    }
  }

  /** `strip()` introduces no character that was not there. */
  lemma StripKeepsAbsent(s: string, c: char)
    requires c !in s
    ensures c !in Strip(s)
  {
    var a := StripStart(s);
    SliceKeepsAbsent(s, a, a + |Strip(s)|, c);
  }

  /** `strip()` leaves nothing exactly when the text is all whitespace. */
  lemma StripEmptyIff(s: string)
    ensures Strip(s) == [] <==> forall i :: 0 <= i < |s| ==> IsSpace(s[i])
  {
  }

  /** Text that neither starts nor ends with whitespace is its own `strip()`. */
  lemma StripKeepsPlain(s: string)
    requires s == [] || (!IsSpace(s[0]) && !IsSpace(s[|s| - 1]))
    ensures Strip(s) == s
  {
  }

  /** A leading whitespace character makes no difference to `strip()`. */
  lemma StripLeadingSpace(c: char, s: string)
    requires IsSpace(c)
    ensures Strip([c] + s) == Strip(s)
  {
    assert ([c] + s)[1..] == s;
  }

  /** No whitespace character is a digit. */
  lemma SpaceIsNoDigit(c: char)
    requires IsSpace(c)
    ensures !IsDigit(c)
  {
  }

  lemma {:induction false} TrimStartKeepsDigits(s: string)
    ensures Digits(TrimStart(s)) == Digits(s)
  {
    if s != [] && IsSpace(s[0]) {
      SpaceIsNoDigit(s[0]);
      TrimStartKeepsDigits(s[1..]);
    }
  }

  lemma {:induction false} TrimEndKeepsDigits(s: string)
    ensures Digits(TrimEnd(s)) == Digits(s)
  {
    if s != [] && IsSpace(s[|s| - 1]) {
      var init, last := s[..|s| - 1], s[|s| - 1];
      SpaceIsNoDigit(last);
      TrimEndKeepsDigits(init);
      assert s == init + [last];
      DigitsConcat(init, [last]);
      assert [last][1..] == [];
    }
  }

  /** Stripping keeps every digit, in order. */
  lemma StripKeepsDigits(s: string)
    ensures Digits(Strip(s)) == Digits(s)
  {
    TrimStartKeepsDigits(s);
    TrimEndKeepsDigits(TrimStart(s));
  }
}
