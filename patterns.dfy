/**
 * The two regular expressions of the contact-form check, written as
 * hand-made recognisers over strings and proved equal to what the expressions
 * mean:
 *   email  ^[^\s@]+@[^\s@]+\.[^\s@]+$
 *   phone  ^[0-9]{2,3}-?[0-9]{3,4}-?[0-9]{4}$   (Korean domestic numbers)
 * For each, the "Split" predicate is the meaning of the expression (some way
 * of cutting the string into the pieces the expression names), and the
 * recogniser decides it by scanning runs of characters, without backtracking.
 */
module Patterns {
  import opened Text

  // ----- email -------------------------------------------------------------

  /** The class `[^\s@]`. */
  predicate AddressChar(c: char) {
    !IsSpace(c) && c != '@'
  }

  predicate AllAddress(s: string) {
    forall k :: 0 <= k < |s| ==> AddressChar(s[k])
  }

  /** `s` is A "@" B "." C where A = s[..i], B = s[i+1..j], C = s[j+1..]
      are each one or more characters of `[^\s@]`. */
  ghost predicate EmailSplit(s: string, i: int, j: int) {
    0 < i && i + 1 < j && j + 1 < |s| && s[i] == '@' && s[j] == '.'
    && AllAddress(s[..i]) && AllAddress(s[i + 1..j]) && AllAddress(s[j + 1..])
  }

  /** What the email expression accepts. */
  ghost predicate EmailPattern(s: string) {
    exists i, j :: EmailSplit(s, i, j)
  }

  /** The part after the '@': no white space and no '@', and a '.' that has
      at least one character on each side. */
  predicate IsDomain(d: string) {
    |d| >= 3 && AllAddress(d) && '.' in d[1..|d| - 1]
  }

  /** The email recogniser: a non-empty local part up to the first character
      outside `[^\s@]`, which must be the '@', then a domain. */
  predicate IsEmail(s: string): (r: bool)
    ensures r ==> |s| >= 5 && s[0] != '@' && '@' in s
  {
    var n := PrefixLen(s, AddressChar);
    0 < n < |s| && s[n] == '@' && IsDomain(s[n + 1..])
  }

  /** Every string the email recogniser accepts matches the email expression. */
  lemma EmailSound(s: string)
    requires IsEmail(s)
    ensures EmailPattern(s)
  {
    var n := PrefixLen(s, AddressChar);
    var d := s[n + 1..];
    var m :| 0 <= m < |d| - 2 && d[1..|d| - 1][m] == '.';
    var j := n + 2 + m;
    assert d[m + 1] == '.';
    assert s[j] == d[m + 1];
    assert s[n + 1..j] == d[..m + 1];
    assert s[j + 1..] == d[m + 2..];
    assert EmailSplit(s, n, j);
  }

  /** Every string matching the email expression is accepted by the recogniser. */
  lemma EmailComplete(s: string, i: int, j: int)
    requires EmailSplit(s, i, j)
    ensures IsEmail(s)
  {
    PrefixLenIs(s, AddressChar, i);
    var d := s[i + 1..];
    forall k | 0 <= k < |d| ensures AddressChar(d[k]) {
      if i + 1 + k < j {
        assert d[k] == s[i + 1..j][k];
      } else if i + 1 + k > j {
        assert d[k] == s[j + 1..][k - (j - i)];
      }
    }
    assert d[1..|d| - 1][j - i - 2] == '.';
  }

  /** The recogniser accepts exactly the strings the email expression matches. */
  lemma EmailMatchesPattern(s: string)
    ensures IsEmail(s) <==> EmailPattern(s)
  {
    if IsEmail(s) {
      EmailSound(s);
    }
    if EmailPattern(s) {
      var i, j :| EmailSplit(s, i, j);
      EmailComplete(s, i, j);
    }
  }

  /** An accepted address has no white space and exactly one '@'. */
  lemma EmailHasOneAt(s: string)
    requires IsEmail(s)
    ensures forall k :: 0 <= k < |s| ==> !IsSpace(s[k])
    ensures exists i :: 0 <= i < |s| && s[i] == '@' && forall k :: 0 <= k < |s| && s[k] == '@' ==> k == i
  {
  }

  // ----- phone -------------------------------------------------------------

  /** The class `[0-9]`. */
  predicate IsDigit(c: char) {
    '0' <= c <= '9'
  }

  predicate AllDigits(s: string) {
    forall k :: 0 <= k < |s| ==> IsDigit(s[k])
  }

  /** No digit is white space. */
  lemma DigitNotSpace(c: char)
    requires IsDigit(c)
    ensures !IsSpace(c)
  {
  }

  /** `-?` */
  predicate OptHyphen(s: string) {
    s == [] || s == "-"
  }

  /** `s` is P1 H1 P2 H2 P3 with P1 = s[..a] of 2 or 3 digits, H1 = s[a..b]
      an optional '-', P2 = s[b..c] of 3 or 4 digits, H2 = s[c..d] an optional
      '-', and P3 = s[d..] of exactly 4 digits. */
  ghost predicate PhoneSplit(s: string, a: int, b: int, c: int, d: int) {
    0 <= a <= b <= c <= d <= |s|
    && 2 <= a <= 3 && AllDigits(s[..a])
    && OptHyphen(s[a..b])
    && 3 <= c - b <= 4 && AllDigits(s[b..c])
    && OptHyphen(s[c..d])
    && |s| - d == 4 && AllDigits(s[d..])
  }

  /** What the phone expression accepts. */
  ghost predicate PhonePattern(s: string) {
    exists a, b, c, d :: PhoneSplit(s, a, b, c, d)
  }

  /** The phone recogniser: cut the string at its hyphens (at most two) and
      check the lengths of the digit groups. Without a hyphen the two group
      boundaries are invisible, so only the total (9 to 11) matters; with one
      hyphen it is either the first separator (2-3 digits, then 7-8) or the
      second (5-7 digits, then 4). */
  predicate IsPhone(s: string): (r: bool)
    ensures r ==> 9 <= |s| <= 13
  {
    var a := PrefixLen(s, IsDigit);
    if a == |s| then 9 <= a <= 11
    else if s[a] != '-' then false
    else
      var t := s[a + 1..];
      var b := PrefixLen(t, IsDigit);
      if b == |t| then (2 <= a <= 3 && 7 <= b <= 8) || (5 <= a <= 7 && b == 4)
      else t[b] == '-' && 2 <= a <= 3 && 3 <= b <= 4 && |t| - b - 1 == 4 && AllDigits(t[b + 1..])
  }

  /** Every string the recogniser accepts matches the phone expression. */
  lemma PhoneSound(s: string)
    requires IsPhone(s)
    ensures PhonePattern(s)
  {
    var a := PrefixLen(s, IsDigit);
    if a == |s| {
      var p := if a == 11 then 3 else 2;
      assert PhoneSplit(s, p, p, a - 4, a - 4);
    } else {
      var t := s[a + 1..];
      var b := PrefixLen(t, IsDigit);
      if b == |t| {
        PhoneSoundOneHyphen(s, a);
      } else {
        assert s[a + 1..a + 1 + b] == t[..b];
        assert s[a + 2 + b..] == t[b + 1..];
        PhoneSoundTwoHyphens(s, a, b);
      }
    }
  }

  /** The strings with one hyphen after `a` digits that the recogniser accepts. */
  lemma PhoneSoundOneHyphen(s: string, a: int)
    requires 0 <= a < |s| && s[a] == '-' && AllDigits(s[..a]) && AllDigits(s[a + 1..])
    requires (2 <= a <= 3 && 7 <= |s| - a - 1 <= 8) || (5 <= a <= 7 && |s| - a - 1 == 4)
    ensures PhonePattern(s)
  {
    assert s[a..a + 1] == "-";
    if 2 <= a <= 3 {
      assert s[a + 1..|s| - 4] == s[a + 1..][..|s| - a - 5];
      assert s[|s| - 4..] == s[a + 1..][|s| - a - 5..];
      assert PhoneSplit(s, a, a + 1, |s| - 4, |s| - 4);
    } else {
      var p := if a == 7 then 3 else 2;
      assert s[..p] == s[..a][..p];
      assert s[p..a] == s[..a][p..];
      assert PhoneSplit(s, p, p, a, a + 1);
    }
  }

  /** The strings with a hyphen after `a` digits and another `b` digits later
      that the recogniser accepts. */
  lemma PhoneSoundTwoHyphens(s: string, a: int, b: int)
    requires 2 <= a <= 3 && 3 <= b <= 4 && |s| == a + b + 6
    requires s[a] == '-' && s[a + 1 + b] == '-'
    requires AllDigits(s[..a]) && AllDigits(s[a + 1..a + 1 + b]) && AllDigits(s[a + 2 + b..])
    ensures PhonePattern(s)
  {
    assert s[a..a + 1] == "-";
    assert s[a + 1 + b..a + 2 + b] == "-";
    assert PhoneSplit(s, a, a + 1, a + 1 + b, a + 2 + b);
  }

  /** In a split of the phone expression every character outside the two
      optional hyphens is a digit. */
  lemma PhoneSplitDigits(s: string, a: int, b: int, c: int, d: int)
    requires PhoneSplit(s, a, b, c, d)
    ensures forall k :: 0 <= k < |s| && !(a <= k < b) && !(c <= k < d) ==> IsDigit(s[k])
  {
    forall k | 0 <= k < |s| && !(a <= k < b) && !(c <= k < d) ensures IsDigit(s[k]) {
      if k < a {
        assert s[k] == s[..a][k];
      } else if k < c {
        assert s[k] == s[b..c][k - b];
      } else {
        assert s[k] == s[d..][k - d];
      }
    }
  }

  /** Every string matching the phone expression is accepted by the recogniser. */
  lemma PhoneComplete(s: string, a: int, b: int, c: int, d: int)
    requires PhoneSplit(s, a, b, c, d)
    ensures IsPhone(s)
  {
    assert b == a || (b == a + 1 && s[a] == s[a..b][0] == '-');
    PhoneSplitDigits(s, a, b, c, d);
    if d == c {
      if b == a {
        PrefixLenIs(s, IsDigit, |s|);
      } else {
        PrefixLenIs(s, IsDigit, a);
        var t := s[a + 1..];
        PrefixLenIs(t, IsDigit, |t|);
      }
    } else {
      PhoneCompleteSecondHyphen(s, a, b, c, d);
    }
  }

  /** The splits whose second optional hyphen is present. */
  lemma PhoneCompleteSecondHyphen(s: string, a: int, b: int, c: int, d: int)
    requires PhoneSplit(s, a, b, c, d) && d != c
    requires b == a || (b == a + 1 && s[a] == '-')
    requires forall k :: 0 <= k < |s| && !(a <= k < b) && !(c <= k < d) ==> IsDigit(s[k])
    ensures IsPhone(s)
  {
    assert d == c + 1 && s[c] == s[c..d][0] == '-';
    if b == a {
      PrefixLenIs(s, IsDigit, c);
      var t := s[c + 1..];
      PrefixLenIs(t, IsDigit, |t|);
    } else {
      PhoneCompleteBothHyphens(s, a, c);
    }
  }

  /** The splits with both optional hyphens present, after `a` and at `c`. */
  lemma PhoneCompleteBothHyphens(s: string, a: int, c: int)
    requires 2 <= a <= 3 && 3 <= c - a - 1 <= 4 && |s| == c + 5
    requires s[a] == '-' && s[c] == '-'
    requires forall k :: 0 <= k < |s| && k != a && k != c ==> IsDigit(s[k])
    ensures IsPhone(s)
  {
    PrefixLenIs(s, IsDigit, a);
    var t := s[a + 1..];
    PrefixLenIs(t, IsDigit, c - a - 1);
    assert t[c - a..] == s[c + 1..];
  }

  /** The recogniser accepts exactly the strings the phone expression matches. */
  lemma PhoneMatchesPattern(s: string)
    ensures IsPhone(s) <==> PhonePattern(s)
  {
    if IsPhone(s) {
      PhoneSound(s);
    }
    if PhonePattern(s) {
      var a, b, c, d :| PhoneSplit(s, a, b, c, d);
      PhoneComplete(s, a, b, c, d);
    }
  }

  /** An accepted phone number starts and ends with a digit. */
  lemma PhoneDigitEnds(s: string)
    requires IsPhone(s)
    ensures s != [] && IsDigit(s[0]) && IsDigit(s[|s| - 1])
  {
    var a := PrefixLen(s, IsDigit);
    if a != |s| {
      var t := s[a + 1..];
      var b := PrefixLen(t, IsDigit);
      if b == |t| {
        assert s[|s| - 1] == t[b - 1];
      } else {
        assert s[|s| - 1] == t[b + 1..][3];
      }
    }
  }

  /** "a@b" has no '.' after the '@' and is refused; "a@b.com" is accepted. */
  lemma EmailExamples()
    ensures !IsEmail("a@b") && IsEmail("a@b.com")
  {
    PrefixLenIs("a@b", AddressChar, 1);
    PrefixLenIs("a@b.com", AddressChar, 1);
    assert "a@b.com"[2..] == "b.com";
    assert "b.com"[1..4][0] == '.';
  }

  /** "010-1234-5678", a mobile number written with both hyphens, is accepted. */
  lemma PhoneAcceptsMobile()
    ensures IsPhone("010-1234-5678")
  {
    PhoneComplete("010-1234-5678", 3, 4, 8, 9);
  }

  /** "12345" is too short and refused. */
  lemma PhoneRejectsShort()
    ensures !IsPhone("12345")
  {
  }
}
