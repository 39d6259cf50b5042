/** The public-address rule of `sanitize_output` (app.py:62) against an
    octet-level description of the private prefixes it keeps: a first octet
    of exactly `10`, a first octet `172` with a two-digit second octet from 16
    to 31, or `192.168`. Octets are runs of one to three digits and are not
    checked against 255. */
module Addresses {
  import opened Text
  import opened Maybe
  import opened Patterns

  /** What `\d{1,3}` takes as one octet. */
  predicate IsOctetText(o: string) {
    1 <= |o| <= 3 && forall j :: 0 <= j < |o| ==> IsDigit(o[j])
  }

  /** The decimal value of a string of digits. */
  function DecimalValue(o: string): nat {
    if o == [] then 0
    else DecimalValue(o[..|o| - 1]) * 10 + (if IsDigit(o[|o| - 1]) then o[|o| - 1] as int - '0' as int else 0)
  }

  /** The leading octets the rule keeps visible. */
  predicate IsPrivate(a: string, b: string) {
    || a == "10"
    || (a == "172" && |b| == 2 && 16 <= DecimalValue(b) <= 31)
    || (a == "192" && b == "168")
  }

  /** The two characters of the second octet that `1[6-9]|2\d|3[01]` accepts
      are exactly the two-digit numbers 16 to 31. */
  lemma SecondOctetRange(b: string)
    requires |b| == 2 && IsDigit(b[0]) && IsDigit(b[1])
    ensures SecondOctet172(b[0], b[1]) <==> 16 <= DecimalValue(b) <= 31
  {
    assert b[..1][..0] == [] && b[..1][0] == b[0] && b[..|b| - 1] == b[..1];
    assert DecimalValue(b[..1]) == b[0] as int - '0' as int;
    assert DecimalValue(b) == (b[0] as int - '0' as int) * 10 + (b[1] as int - '0' as int);
  }

  /** An octet `o` written at `i`, ended by a non-digit or the end of the text. */
  lemma OctetAt(s: string, i: nat, o: string)
    requires IsOctetText(o) && i + |o| <= |s| && WrittenAt(s, i, o)
    requires i + |o| == |s| || !IsDigit(s[i + |o|])
    ensures DigitRun(s, i) == |o|
  {
    forall j | i <= j < i + |o| ensures IsDigit(s[j]) {
      assert s[j] == o[j - i];
    }
    DigitRunIs(s, i, |o|);
  }

  /** The text `o` is written in `s` starting at `i`. */
  predicate WrittenAt(s: string, i: nat, o: string) {
    i + |o| <= |s| && forall j :: 0 <= j < |o| ==> s[i + j] == o[j]
  }

  /** The address `a.b.c.d` is written in `s` starting at `i`. */
  predicate QuadAt(s: string, i: nat, a: string, b: string, c: string, d: string) {
    var p1 := i + |a| + 1;
    var p2 := p1 + |b| + 1;
    var p3 := p2 + |c| + 1;
    && p3 + |d| <= |s|
    && WrittenAt(s, i, a) && s[i + |a|] == '.'
    && WrittenAt(s, p1, b) && s[p1 + |b|] == '.'
    && WrittenAt(s, p2, c) && s[p2 + |c|] == '.'
    && WrittenAt(s, p3, d)
  }

  /** Each octet of an address ended by a non-digit is one maximal run of
      digits. */
  lemma QuadOctets(s: string, i: nat, a: string, b: string, c: string, d: string)
    requires IsOctetText(a) && IsOctetText(b) && IsOctetText(c) && IsOctetText(d)
    requires QuadAt(s, i, a, b, c, d)
    requires var e := i + |a| + |b| + |c| + |d| + 3; e == |s| || !IsDigit(s[e])
    ensures DigitRun(s, i) == |a| && DigitRun(s, i + |a| + 1) == |b|
    ensures DigitRun(s, i + |a| + 1 + |b| + 1) == |c| && DigitRun(s, i + |a| + 1 + |b| + 1 + |c| + 1) == |d|
  {
    var p1 := i + |a| + 1;
    var p2 := p1 + |b| + 1;
    var p3 := p2 + |c| + 1;
    assert s[p1 - 1] == '.' && s[p2 - 1] == '.' && s[p3 - 1] == '.';
    OctetAt(s, i, a);
    OctetAt(s, p1, b);
    OctetAt(s, p2, c);
    OctetAt(s, p3, d);
  }

  /** The four octets are read as the four runs of `\d{1,3}\.(?:\d{1,3}\.){2}\d{1,3}`. */
  lemma QuadRuns(s: string, i: nat, a: string, b: string, c: string, d: string)
    requires IsOctetText(a) && IsOctetText(b) && IsOctetText(c) && IsOctetText(d)
    requires QuadAt(s, i, a, b, c, d)
    requires var e := i + |a| + |b| + |c| + |d| + 3; e == |s| || !IsDigit(s[e])
    ensures DottedRuns(s, i, 4) == Some(i + |a| + |b| + |c| + |d| + 3)
  {
    QuadOctets(s, i, a, b, c, d);
    RunsOfLengths(s, i, |a|, |b|, |c|, |d|);
  }

  /** Four maximal runs of one to three digits of lengths `la`, `lb`, `lc`
      and `ld`, separated by dots. */
  lemma RunsOfLengths(s: string, i: nat, la: nat, lb: nat, lc: nat, ld: nat)
    requires 1 <= la <= 3 && 1 <= lb <= 3 && 1 <= lc <= 3 && 1 <= ld <= 3
    requires i + la + lb + lc + ld + 3 <= |s|
    requires DigitRun(s, i) == la && s[i + la] == '.'
    requires DigitRun(s, i + la + 1) == lb && s[i + la + 1 + lb] == '.'
    requires DigitRun(s, i + la + 1 + lb + 1) == lc && s[i + la + 1 + lb + 1 + lc] == '.'
    requires DigitRun(s, i + la + 1 + lb + 1 + lc + 1) == ld
    ensures DottedRuns(s, i, 4) == Some(i + la + lb + lc + ld + 3)
  {
    var p1 := i + la + 1;
    var p2 := p1 + lb + 1;
    var p3 := p2 + lc + 1;
    RunsStep(s, i, 4, p1);
    RunsStep(s, p1, 3, p2);
    RunsStep(s, p2, 2, p3);
    RunsLast(s, p3, p3 + ld);
  }

  /** The last run. */
  lemma RunsLast(s: string, i: nat, e: nat)
    requires i + 1 <= e <= i + 3 && e <= |s| && DigitRun(s, i) == e - i
    ensures DottedRuns(s, i, 1) == Some(e)
  {
  }

  /** One run and its dot, then the remaining `n - 1` runs from `j`. */
  lemma RunsStep(s: string, i: nat, n: nat, j: nat)
    requires n > 1 && i + 2 <= j <= i + 4 && j <= |s| && DigitRun(s, i) == j - i - 1 && s[j - 1] == '.'
    ensures DottedRuns(s, i, n) == DottedRuns(s, j, n - 1)
  {
  }

  /** `10.` is read exactly when the first octet is `10`. */
  lemma TenAlternative(s: string, i: nat, a: string)
    requires IsOctetText(a) && i + |a| < |s| && WrittenAt(s, i, a) && s[i + |a|] == '.'
    ensures StartsAt(s, i, "10.") <==> a == "10"
  {
    OctetAt(s, i, a);
    if StartsAt(s, i, "10.") {
      assert s[i] == '1' && s[i + 1] == '0' && s[i + 2] == '.';
      assert |a| == 2;
      assert a == s[i..i + 2];
    }
    if a == "10" {
      assert s[i..i + 3] == a + ".";
    }
  }

  /** The octets the `192.168.` alternative of the lookahead reads. */
  lemma NineteenTwoReads(s: string, i: nat, a: string, b: string)
    requires IsOctetText(a) && IsOctetText(b)
    requires var p := i + |a| + 1;
      p + |b| < |s| && WrittenAt(s, i, a) && s[i + |a|] == '.' && WrittenAt(s, p, b) && s[p + |b|] == '.'
    requires StartsAt(s, i, "192.168.")
    ensures a == "192" && b == "168"
  {
    var w := s[i..i + 8];
    assert w == "192.168.";
    assert s[i + 1] == w[1] && s[i + 2] == w[2] && s[i + 3] == w[3];
    OctetAt(s, i, a);
    assert |a| == 3;
    assert a == w[..3];
    var p := i + |a| + 1;
    assert s[p + 1] == w[5] && s[p + 2] == w[6] && s[p + 3] == w[7];
    OctetAt(s, p, b);
    assert |b| == 3;
    assert b == w[4..7];
  }

  /** `192.168.` is read exactly when the octets are `192` and `168`. */
  lemma NineteenTwoAlternative(s: string, i: nat, a: string, b: string)
    requires IsOctetText(a) && IsOctetText(b)
    requires var p := i + |a| + 1;
      p + |b| < |s| && WrittenAt(s, i, a) && s[i + |a|] == '.' && WrittenAt(s, p, b) && s[p + |b|] == '.'
    ensures StartsAt(s, i, "192.168.") <==> a == "192" && b == "168"
  {
    if StartsAt(s, i, "192.168.") {
      NineteenTwoReads(s, i, a, b);
    }
    if a == "192" && b == "168" {
      assert s[i..i + 8] == a + "." + b + ".";
    }
  }

  /** The octets the `172.` alternative of the lookahead reads. */
  lemma OneSevenTwoReads(s: string, i: nat, a: string, b: string)
    requires IsOctetText(a) && IsOctetText(b)
    requires var p := i + |a| + 1;
      p + |b| < |s| && WrittenAt(s, i, a) && s[i + |a|] == '.' && WrittenAt(s, p, b) && s[p + |b|] == '.'
    requires StartsAt(s, i, "172.") && i + 7 <= |s| && IsDigit(s[i + 4]) && IsDigit(s[i + 5]) && s[i + 6] == '.'
    ensures a == "172" && b == [s[i + 4], s[i + 5]]
  {
    var p := i + |a| + 1;
    OctetAt(s, i, a);
    assert s[i + 1] == '7' && s[i + 2] == '2' && s[i + 3] == '.';
    assert |a| == 3;
    assert a == s[i..i + 3];
    OctetAt(s, p, b);
    assert |b| == 2;
    assert b == s[p..p + 2];
  }

  /** `172.` followed by 16 to 31 and a dot is read exactly when the first
      octet is `172` and the second a two-digit number from 16 to 31. */
  lemma OneSevenTwoAlternative(s: string, i: nat, a: string, b: string)
    requires IsOctetText(a) && IsOctetText(b)
    requires var p := i + |a| + 1;
      p + |b| < |s| && WrittenAt(s, i, a) && s[i + |a|] == '.' && WrittenAt(s, p, b) && s[p + |b|] == '.'
    ensures (StartsAt(s, i, "172.") && i + 7 <= |s| && SecondOctet172(s[i + 4], s[i + 5]) && s[i + 6] == '.')
        <==> (a == "172" && |b| == 2 && 16 <= DecimalValue(b) <= 31)
  {
    var p := i + |a| + 1;
    if StartsAt(s, i, "172.") && i + 7 <= |s| && SecondOctet172(s[i + 4], s[i + 5]) && s[i + 6] == '.' {
      OneSevenTwoReads(s, i, a, b);
      SecondOctetRange(b);
    }
    if a == "172" && |b| == 2 && 16 <= DecimalValue(b) <= 31 {
      assert s[i..i + 4] == a + ".";
      assert p == i + 4;
      assert s[i + 4] == b[0] && s[i + 5] == b[1];
      SecondOctetRange(b);
    }
  }

  /** The negative lookahead fires exactly on the private leading octets. */
  lemma LookaheadIsPrivate(s: string, i: nat, a: string, b: string, c: string, d: string)
    requires IsOctetText(a) && IsOctetText(b) && IsOctetText(c) && IsOctetText(d)
    requires QuadAt(s, i, a, b, c, d)
    ensures PrivateLookahead(s, i) <==> IsPrivate(a, b)
  {
    TenAlternative(s, i, a);
    NineteenTwoAlternative(s, i, a, b);
    OneSevenTwoAlternative(s, i, a, b);
  }

  /** Public-address masking, both directions: an address `a.b.c.d` written
      at `i` between word boundaries is matched there, up to its last digit,
      exactly when its leading octets are not private; a private one is not
      matched at its start. */
  lemma QuadMatchAt(s: string, i: nat, a: string, b: string, c: string, d: string)
    requires IsOctetText(a) && IsOctetText(b) && IsOctetText(c) && IsOctetText(d)
    requires QuadAt(s, i, a, b, c, d)
    requires i == 0 || !IsWord(s[i - 1])
    requires var e := i + |a| + |b| + |c| + |d| + 3; e == |s| || !IsWord(s[e])
    ensures MatchPublicIPv4(s, i)
         == if IsPrivate(a, b) then None else Some(Hit(i + |a| + |b| + |c| + |d| + 3, MaskedPublicIp))
  {
    QuadRuns(s, i, a, b, c, d);
    LookaheadIsPrivate(s, i, a, b, c, d);
    assert s[i] == a[0];
  }

  /** The edges of the private ranges: `10`, `172.16` to `172.31` and
      `192.168` are kept; `110`, `172.15`, `172.32`, `192.169` and `203` are
      not. */
  lemma PrivateEdges()
    ensures IsPrivate("10", "0") && IsPrivate("172", "16") && IsPrivate("172", "31") && IsPrivate("192", "168")
    ensures !IsPrivate("110", "0") && !IsPrivate("172", "15") && !IsPrivate("172", "32")
    ensures !IsPrivate("192", "169") && !IsPrivate("203", "0") && !IsPrivate("172", "016")
  {
    assert DecimalValue("1") == 1 && DecimalValue("3") == 3;
    assert "16"[..1] == "1" && "15"[..1] == "1" && "31"[..1] == "3" && "32"[..1] == "3";
  }
}
