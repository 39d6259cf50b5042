/** The public-address substitution (app.py:62, applied by `re.sub` at
    app.py:70) around one dotted quad. A private address is copied unchanged
    when the characters next to it are neither digits nor dots. When more
    dotted digits are attached, the pattern can start inside the private
    address or swallow it into a longer run, and part of it is masked. */
module AddressScan {
  import opened Text
  import opened Maybe
  import opened Patterns
  import opened Sanitizer
  import opened Addresses

  /** A character the address pattern cannot read: neither a digit nor a dot. */
  predicate Apart(c: char) {
    !IsDigit(c) && c != '.'
  }

  /** Every character that dot-separated runs read is a digit or a dot. */
  lemma {:induction false} RunsRead(s: string, i: nat, n: nat, j: nat)
    requires i <= |s| && n >= 1 && DottedRuns(s, i, n).Some?
    requires i <= j < DottedRuns(s, i, n).value
    ensures IsDigit(s[j]) || s[j] == '.'
    decreases n
  {
    var a := DigitRun(s, i);
    DigitRunDigits(s, i);
    if n > 1 && j > i + a {
      RunsRead(s, i + a + 1, n - 1, j);
    }
  }

  /** A match that starts before a character the pattern cannot read ends
      before that character. */
  lemma MatchStopsBefore(s: string, k: nat, i: nat)
    requires k < i <= |s| && Apart(s[i - 1])
    requires MatchPublicIPv4(s, k).Some?
    ensures MatchPublicIPv4(s, k).value.end < i
  {
    var e := MatchPublicIPv4(s, k).value.end;
    assert DottedRuns(s, k, 4) == Some(e);
    if e >= i {
      RunsRead(s, k, 4, i - 1);
    }
  }

  /** Runs that start at the last octet, with no dot after it, cannot make up
      two or more runs. */
  lemma RunsFromLast(s: string, p: nat, n: nat)
    requires p <= |s| && 2 <= n && 1 <= DigitRun(s, p) <= 3
    requires p + DigitRun(s, p) == |s| || s[p + DigitRun(s, p)] != '.'
    ensures DottedRuns(s, p, n).None?
  {
  }

  /** The second, third and fourth octets of an address that no dot follows
      do not start four dot-separated runs. */
  lemma NoRunsFromLaterOctet(s: string, p1: nat, p2: nat, p3: nat, k: nat)
    requires p1 + 2 <= p2 <= p1 + 4 && p2 + 2 <= p3 <= p2 + 4 && p3 <= |s|
    requires DigitRun(s, p1) == p2 - p1 - 1 && s[p2 - 1] == '.'
    requires DigitRun(s, p2) == p3 - p2 - 1 && s[p3 - 1] == '.'
    requires 1 <= DigitRun(s, p3) <= 3
    requires p3 + DigitRun(s, p3) == |s| || s[p3 + DigitRun(s, p3)] != '.'
    requires k == p1 || k == p2 || k == p3
    ensures DottedRuns(s, k, 4).None?
  {
    RunsStep(s, p2, 3, p3);
    if k == p1 {
      RunsStep(s, p1, 4, p2);
      RunsFromLast(s, p3, 2);
    } else if k == p2 {
      RunsStep(s, p2, 4, p3);
      RunsFromLast(s, p3, 3);
    } else {
      RunsFromLast(s, p3, 4);
    }
  }

  /** The address pattern starts no match from `i` up to `m`. */
  predicate NoAddressBetween(s: string, i: nat, m: nat)
    requires i <= m <= |s|
  {
    forall k :: i <= k < m ==> MatchPublicIPv4(s, k).None?
  }

  /** Where the address pattern starts no match, neither does the
      public-address rule. */
  lemma PublicIdle(s: string, i: nat, m: nat)
    requires i <= m <= |s| && NoAddressBetween(s, i, m)
    ensures NoMatchBetween(PublicIPv4, s, i, m)
  {
    forall k | i <= k < m ensures MatchAt(PublicIPv4, s, k).None? {
      assert MatchPublicIPv4(s, k).None?;
    }
  }

  /** A stretch without matches stays without them when a dot follows. */
  lemma AddressJoinDot(s: string, p: nat, q: nat)
    requires p <= q < |s| && s[q] == '.' && NoAddressBetween(s, p, q)
    ensures NoAddressBetween(s, p, q + 1)
  {
    forall k | p <= k < q + 1 ensures MatchPublicIPv4(s, k).None? {
      if k == q {
        assert !IsDigit(s[k]);
      }
    }
  }

  /** An octet that starts no four dot-separated runs and which a dot ends
      holds no match of the pattern, its dot included: after its first digit
      no word boundary lies, and the dot is no digit. */
  lemma OctetQuiet(s: string, p: nat, q: nat)
    requires p < q < |s| && q == p + DigitRun(s, p) && s[q] == '.'
    requires DottedRuns(s, p, 4).None?
    ensures NoAddressBetween(s, p, q + 1)
  {
    assert MatchPublicIPv4(s, p).None?;
    RestOfOctetQuiet(s, p, q);
    AddressJoinDot(s, p, q);
  }

  /** An octet that starts no four dot-separated runs holds no match of the
      pattern. */
  lemma LastOctetQuiet(s: string, p: nat, q: nat)
    requires p < q <= |s| && q == p + DigitRun(s, p)
    requires DottedRuns(s, p, 4).None?
    ensures NoAddressBetween(s, p, q)
  {
    assert MatchPublicIPv4(s, p).None?;
    RestOfOctetQuiet(s, p, q);
  }

  /** No match starts after the first digit of an octet. */
  lemma RestOfOctetQuiet(s: string, p: nat, q: nat)
    requires p < q <= |s| && q == p + DigitRun(s, p)
    requires MatchPublicIPv4(s, p).None?
    ensures NoAddressBetween(s, p, q)
  {
    DigitRunDigits(s, p);
    forall k | p < k < q ensures MatchPublicIPv4(s, k).None? {
      assert IsDigit(s[k - 1]);
    }
  }

  /** The first octet of an address whose first digit starts no match holds
      no match of the pattern, its dot included. */
  lemma FirstOctetQuiet(s: string, p: nat, q: nat)
    requires p < q < |s| && q == p + DigitRun(s, p) && s[q] == '.'
    requires MatchPublicIPv4(s, p).None?
    ensures NoAddressBetween(s, p, q + 1)
  {
    RestOfOctetQuiet(s, p, q);
    AddressJoinDot(s, p, q);
  }

  /** The three dots of an address. */
  lemma QuadDots(s: string, i: nat, a: string, b: string, c: string, d: string, p1: nat, p2: nat, p3: nat)
    requires QuadAt(s, i, a, b, c, d)
    requires p1 == i + |a| + 1 && p2 == p1 + |b| + 1 && p3 == p2 + |c| + 1
    ensures s[p1 - 1] == '.' && s[p2 - 1] == '.' && s[p3 - 1] == '.'
  {
    assert s[i + |a|] == '.' && s[i + |a| + 1 + |b|] == '.' && s[i + |a| + 1 + |b| + 1 + |c|] == '.';
  }

  /** The first octet of an address ended by a non-digit is one maximal
      run of digits. */
  lemma FirstOctetRun(s: string, i: nat, a: string, b: string, c: string, d: string, p1: nat, p2: nat, p3: nat, e: nat)
    requires IsOctetText(a) && IsOctetText(b) && IsOctetText(c) && IsOctetText(d)
    requires QuadAt(s, i, a, b, c, d)
    requires p1 == i + |a| + 1 && p2 == p1 + |b| + 1 && p3 == p2 + |c| + 1 && e == p3 + |d|
    requires e == |s| || !IsDigit(s[e])
    ensures DigitRun(s, i) == p1 - i - 1
  {
    QuadOctets(s, i, a, b, c, d);
  }

  /** The second octet of an address ended by a non-digit is one maximal
      run of digits. */
  lemma SecondOctetRun(s: string, i: nat, a: string, b: string, c: string, d: string, p1: nat, p2: nat, p3: nat, e: nat)
    requires IsOctetText(a) && IsOctetText(b) && IsOctetText(c) && IsOctetText(d)
    requires QuadAt(s, i, a, b, c, d)
    requires p1 == i + |a| + 1 && p2 == p1 + |b| + 1 && p3 == p2 + |c| + 1 && e == p3 + |d|
    requires e == |s| || !IsDigit(s[e])
    ensures DigitRun(s, p1) == p2 - p1 - 1
  {
    QuadOctets(s, i, a, b, c, d);
  }

  /** The third octet of an address ended by a non-digit is one maximal
      run of digits. */
  lemma ThirdOctetRun(s: string, i: nat, a: string, b: string, c: string, d: string, p1: nat, p2: nat, p3: nat, e: nat)
    requires IsOctetText(a) && IsOctetText(b) && IsOctetText(c) && IsOctetText(d)
    requires QuadAt(s, i, a, b, c, d)
    requires p1 == i + |a| + 1 && p2 == p1 + |b| + 1 && p3 == p2 + |c| + 1 && e == p3 + |d|
    requires e == |s| || !IsDigit(s[e])
    ensures DigitRun(s, p2) == p3 - p2 - 1
  {
    QuadOctets(s, i, a, b, c, d);
  }

  /** The last octet of an address ended by a non-digit is one maximal
      run of digits. */
  lemma LastOctetRun(s: string, i: nat, a: string, b: string, c: string, d: string, p1: nat, p2: nat, p3: nat, e: nat)
    requires IsOctetText(a) && IsOctetText(b) && IsOctetText(c) && IsOctetText(d)
    requires QuadAt(s, i, a, b, c, d)
    requires p1 == i + |a| + 1 && p2 == p1 + |b| + 1 && p3 == p2 + |c| + 1 && e == p3 + |d|
    requires e == |s| || !IsDigit(s[e])
    ensures e == p3 + DigitRun(s, p3)
  {
    QuadOctets(s, i, a, b, c, d);
  }

  /** The layout of an address ended by a non-digit, in terms of the runs
      the pattern reads: where each octet starts, that each is one maximal
      run of digits, and the dots between them. */
  lemma QuadLayout(s: string, i: nat, a: string, b: string, c: string, d: string, p1: nat, p2: nat, p3: nat, e: nat)
    requires IsOctetText(a) && IsOctetText(b) && IsOctetText(c) && IsOctetText(d)
    requires QuadAt(s, i, a, b, c, d)
    requires p1 == i + |a| + 1 && p2 == p1 + |b| + 1 && p3 == p2 + |c| + 1 && e == p3 + |d|
    requires e == |s| || !IsDigit(s[e])
    ensures i + 2 <= p1 <= i + 4 && p1 + 2 <= p2 <= p1 + 4 && p2 + 2 <= p3 <= p2 + 4 && p3 <= |s|
    ensures DigitRun(s, i) == p1 - i - 1 && s[p1 - 1] == '.'
    ensures DigitRun(s, p1) == p2 - p1 - 1 && s[p2 - 1] == '.'
    ensures DigitRun(s, p2) == p3 - p2 - 1 && s[p3 - 1] == '.'
    ensures e == p3 + DigitRun(s, p3) && p3 < e <= p3 + 3
  {
    QuadDots(s, i, a, b, c, d, p1, p2, p3);
    FirstOctetRun(s, i, a, b, c, d, p1, p2, p3, e);
    SecondOctetRun(s, i, a, b, c, d, p1, p2, p3, e);
    ThirdOctetRun(s, i, a, b, c, d, p1, p2, p3, e);
    LastOctetRun(s, i, a, b, c, d, p1, p2, p3, e);
  }

  /** No match starts at or after the first digit of an address laid out as
      `QuadLayout` says, when no match starts at its first digit and no dot
      follows it. */
  lemma NoMatchInLayout(s: string, i: nat, p1: nat, p2: nat, p3: nat, e: nat)
    requires i + 2 <= p1 <= i + 4 && p1 + 2 <= p2 <= p1 + 4 && p2 + 2 <= p3 <= p2 + 4 && p3 <= |s|
    requires DigitRun(s, i) == p1 - i - 1 && s[p1 - 1] == '.'
    requires DigitRun(s, p1) == p2 - p1 - 1 && s[p2 - 1] == '.'
    requires DigitRun(s, p2) == p3 - p2 - 1 && s[p3 - 1] == '.'
    requires e == p3 + DigitRun(s, p3) && p3 < e <= p3 + 3
    requires e == |s| || s[e] != '.'
    requires MatchPublicIPv4(s, i).None?
    ensures NoAddressBetween(s, i, e)
  {
    FirstOctetQuiet(s, i, p1 - 1);
    LaterOctetsQuiet(s, p1, p2, p3, e);
    AddressJoin(s, i, p1, e);
  }

  /** The second, third and last octets of an address that no dot follows
      hold no match. */
  lemma LaterOctetsQuiet(s: string, p1: nat, p2: nat, p3: nat, e: nat)
    requires p1 + 2 <= p2 <= p1 + 4 && p2 + 2 <= p3 <= p2 + 4 && p3 <= |s|
    requires DigitRun(s, p1) == p2 - p1 - 1 && s[p2 - 1] == '.'
    requires DigitRun(s, p2) == p3 - p2 - 1 && s[p3 - 1] == '.'
    requires e == p3 + DigitRun(s, p3) && p3 < e <= p3 + 3
    requires e == |s| || s[e] != '.'
    ensures NoAddressBetween(s, p1, e)
  {
    NoRunsFromLaterOctet(s, p1, p2, p3, p1);
    OctetQuiet(s, p1, p2 - 1);
    NoRunsFromLaterOctet(s, p1, p2, p3, p2);
    OctetQuiet(s, p2, p3 - 1);
    NoRunsFromLaterOctet(s, p1, p2, p3, p3);
    LastOctetQuiet(s, p3, e);
    AddressJoin(s, p2, p3, e);
    AddressJoin(s, p1, p2, e);
  }

  /** Two adjacent stretches without matches of the pattern make one. */
  lemma AddressJoin(s: string, i: nat, m: nat, e: nat)
    requires i <= m <= e <= |s| && NoAddressBetween(s, i, m) && NoAddressBetween(s, m, e)
    ensures NoAddressBetween(s, i, e)
  {
    forall k | i <= k < e ensures MatchPublicIPv4(s, k).None? {
      if k < m {
        assert NoAddressBetween(s, i, m);
      }
    }
  }

  /** No match of the public-address pattern starts inside a private address
      that is not followed by a digit or a dot. */
  lemma NoMatchInside(s: string, i: nat, a: string, b: string, c: string, d: string)
    requires IsOctetText(a) && IsOctetText(b) && IsOctetText(c) && IsOctetText(d)
    requires QuadAt(s, i, a, b, c, d) && IsPrivate(a, b)
    requires var e := i + |a| + |b| + |c| + |d| + 3; e == |s| || Apart(s[e])
    ensures NoMatchBetween(PublicIPv4, s, i, i + |a| + |b| + |c| + |d| + 3)
  {
    var p1 := i + |a| + 1;
    var p2 := p1 + |b| + 1;
    var p3 := p2 + |c| + 1;
    var e := p3 + |d|;
    QuadLayout(s, i, a, b, c, d, p1, p2, p3, e);
    LookaheadIsPrivate(s, i, a, b, c, d);
    NoMatchInLayout(s, i, p1, p2, p3, e);
    PublicIdle(s, i, e);
  }

  /** No match that starts before an address preceded by a character the
      pattern cannot read runs into it. */
  lemma StopsBeforeAddress(s: string, i: nat)
    requires i <= |s| && (i == 0 || Apart(s[i - 1]))
    ensures forall k :: 0 <= k < i && MatchAt(PublicIPv4, s, k).Some? ==> MatchAt(PublicIPv4, s, k).value.end <= i
  {
    forall k | 0 <= k < i && MatchAt(PublicIPv4, s, k).Some?
      ensures MatchAt(PublicIPv4, s, k).value.end <= i
    {
      MatchStopsBefore(s, k, i);
    }
  }

  /** Once the scan reaches a private address not followed by a digit or a
      dot, it copies the address whole and resumes after it. */
  lemma PrivateAddressCopied(s: string, i: nat, a: string, b: string, c: string, d: string, e: nat)
    requires IsOctetText(a) && IsOctetText(b) && IsOctetText(c) && IsOctetText(d)
    requires QuadAt(s, i, a, b, c, d) && IsPrivate(a, b)
    requires e == i + |a| + |b| + |c| + |d| + 3 && (e == |s| || Apart(s[e]))
    ensures SubFrom(PublicIPv4, s, i) == s[i..e] + SubFrom(PublicIPv4, s, e)
  {
    NoMatchInside(s, i, a, b, c, d);
    SubFromSkips(PublicIPv4, s, i, e);
  }

  /** A private address whose neighbours are neither digits nor dots comes
      through the substitution byte for byte: the scan reaches its first
      digit, and from there copies it whole. */
  lemma PrivateAddressKept(s: string, i: nat, a: string, b: string, c: string, d: string, e: nat)
    requires IsOctetText(a) && IsOctetText(b) && IsOctetText(c) && IsOctetText(d)
    requires QuadAt(s, i, a, b, c, d) && IsPrivate(a, b)
    requires i == 0 || Apart(s[i - 1])
    requires e == i + |a| + |b| + |c| + |d| + 3 && (e == |s| || Apart(s[e]))
    ensures exists pre :: Apply(PublicIPv4, s) == pre + s[i..e] + SubFrom(PublicIPv4, s, e)
  {
    PrivateAddressCopied(s, i, a, b, c, d, e);
    StopsBeforeAddress(s, i);
    var pre := SubFromReaches(PublicIPv4, s, 0, i);
    AppendAssoc(pre, s[i..e], SubFrom(PublicIPv4, s, e));
  }

  /** Once the scan reaches a public address between word boundaries, it
      emits the address placeholder and resumes after the address. */
  lemma PublicAddressReplaced(s: string, i: nat, a: string, b: string, c: string, d: string, e: nat)
    requires IsOctetText(a) && IsOctetText(b) && IsOctetText(c) && IsOctetText(d)
    requires QuadAt(s, i, a, b, c, d) && !IsPrivate(a, b)
    requires i == 0 || !IsWord(s[i - 1])
    requires e == i + |a| + |b| + |c| + |d| + 3 && (e == |s| || !IsWord(s[e]))
    ensures SubFrom(PublicIPv4, s, i) == MaskedPublicIp + SubFrom(PublicIPv4, s, e)
  {
    QuadMatchAt(s, i, a, b, c, d);
    assert MatchAt(PublicIPv4, s, i) == Some(Hit(e, MaskedPublicIp));
    SubFromReplaces(PublicIPv4, s, i);
  }

  /** A public address between word boundaries, after neither a digit nor a
      dot, is masked in the substituted text: whatever the scan makes of the
      text before it, the address placeholder stands in its place. */
  lemma PublicAddressMasked(s: string, i: nat, a: string, b: string, c: string, d: string, e: nat)
    requires IsOctetText(a) && IsOctetText(b) && IsOctetText(c) && IsOctetText(d)
    requires QuadAt(s, i, a, b, c, d) && !IsPrivate(a, b)
    requires i == 0 || (Apart(s[i - 1]) && !IsWord(s[i - 1]))
    requires e == i + |a| + |b| + |c| + |d| + 3 && (e == |s| || !IsWord(s[e]))
    ensures exists pre :: Apply(PublicIPv4, s) == pre + MaskedPublicIp + SubFrom(PublicIPv4, s, e)
  {
    PublicAddressReplaced(s, i, a, b, c, d, e);
    StopsBeforeAddress(s, i);
    var pre := SubFromReaches(PublicIPv4, s, 0, i);
    AppendAssoc(pre, MaskedPublicIp, SubFrom(PublicIPv4, s, e));
  }

  /** A private address followed by one more dot and run is partly masked:
      the lookahead keeps the first octet, and the pattern then matches the
      four runs after it, so `10.1.1.1.5` becomes `10.<MASKED_PUBLIC_IP>`. */
  lemma PartlyMasked(s: string)
    requires s == "10.1.1.1.5"
    ensures Apply(PublicIPv4, s) == "10." + MaskedPublicIp
  {
    GluedQuadMatches(s);
    GluedHeadUnmatched(s);
    SubFromFirstMatch(PublicIPv4, s, 0, 3);
    assert s[0..3] == "10.";
  }

  /** In `10.1.1.1.5` the pattern matches `1.1.1.5`: a dot before it is a
      word boundary and `1.1` is no private prefix. */
  lemma GluedQuadMatches(s: string)
    requires s == "10.1.1.1.5"
    ensures MatchAt(PublicIPv4, s, 3) == Some(Hit(|s|, MaskedPublicIp))
  {
    assert QuadAt(s, 3, "1", "1", "1", "5") by {
      assert WrittenAt(s, 3, "1") && WrittenAt(s, 5, "1") && WrittenAt(s, 7, "1") && WrittenAt(s, 9, "5");
    }
    assert !IsPrivate("1", "1");
    QuadMatchAt(s, 3, "1", "1", "1", "5");
  }

  /** In `10.1.1.1.5` no match starts in `10.`: the lookahead refuses the
      first digit, the second follows a digit, and a dot is no digit. */
  lemma GluedHeadUnmatched(s: string)
    requires s == "10.1.1.1.5"
    ensures NoMatchBetween(PublicIPv4, s, 0, 3)
  {
    forall k | 0 <= k < 3 ensures MatchAt(PublicIPv4, s, k).None? {
      if k == 0 {
        assert s[0..3] == "10.";
        assert PrivateLookahead(s, 0);
      } else {
        assert IsDigit(s[0]) && !IsDigit(s[2]);
      }
    }
  }

  /** A private address after one more run and dot is swallowed: the
      pattern matches from the first run, so `1.10.1.1.1` becomes
      `<MASKED_PUBLIC_IP>.1`. */
  lemma Swallowed(s: string)
    requires s == "1.10.1.1.1"
    ensures Apply(PublicIPv4, s) == MaskedPublicIp + ".1"
  {
    SwallowedMatch(s);
    SubFromReplaces(PublicIPv4, s, 0);
    ShortTailUnmatched(s, 8);
    SubFromSkips(PublicIPv4, s, 8, |s|);
    assert s[8..] == ".1";
  }

  /** In `1.10.1.1.1` the pattern matches `1.10.1.1`, which a dot ends. */
  lemma SwallowedMatch(s: string)
    requires s == "1.10.1.1.1"
    ensures MatchAt(PublicIPv4, s, 0) == Some(Hit(8, MaskedPublicIp))
  {
    assert QuadAt(s, 0, "1", "10", "1", "1") by {
      assert WrittenAt(s, 0, "1") && WrittenAt(s, 2, "10") && WrittenAt(s, 5, "1") && WrittenAt(s, 7, "1");
    }
    assert !IsPrivate("1", "10");
    QuadMatchAt(s, 0, "1", "10", "1", "1");
  }

  /** A tail made of a non-digit and then fewer than four runs holds no match. */
  lemma ShortTailUnmatched(s: string, i: nat)
    requires i < |s| && |s| - i <= 4 && !IsDigit(s[i])
    requires forall k :: i < k < |s| ==> IsDigit(s[k])
    ensures NoMatchBetween(PublicIPv4, s, i, |s|)
  {
    forall k | i <= k < |s| ensures MatchAt(PublicIPv4, s, k).None? {
      if k > i + 1 {
        assert IsDigit(s[k - 1]);
      } else if k == i + 1 {
        DigitRunDigits(s, k);
        assert DottedRuns(s, k, 4).None?;
      }
    }
  }

  /** A public address with a prefix length is masked and the length kept:
      `203.0.113.5/32` becomes `<MASKED_PUBLIC_IP>/32`. */
  lemma WithPrefixLength(s: string)
    requires s == "203.0.113.5/32"
    ensures Apply(PublicIPv4, s) == MaskedPublicIp + "/32"
  {
    PrefixedMatch(s);
    SubFromReplaces(PublicIPv4, s, 0);
    ShortTailUnmatched(s, 11);
    SubFromSkips(PublicIPv4, s, 11, |s|);
    assert s[11..] == "/32";
  }

  /** In `203.0.113.5/32` the pattern matches the address up to the slash. */
  lemma PrefixedMatch(s: string)
    requires s == "203.0.113.5/32"
    ensures MatchAt(PublicIPv4, s, 0) == Some(Hit(11, MaskedPublicIp))
  {
    PrefixedQuad(s);
    assert !IsPrivate("203", "0");
    QuadMatchAt(s, 0, "203", "0", "113", "5");
  }

  /** `203.0.113.5/32` starts with the address `203.0.113.5`. */
  lemma PrefixedQuad(s: string)
    requires s == "203.0.113.5/32"
    ensures QuadAt(s, 0, "203", "0", "113", "5") && IsOctetText("203") && IsOctetText("113")
  {
    assert WrittenAt(s, 0, "203") && WrittenAt(s, 4, "0") && WrittenAt(s, 6, "113") && WrittenAt(s, 10, "5");
  }

  /** A private address on its own is kept: `10.1.1.1` comes through
      unchanged. */
  lemma PrivateAlone(s: string)
    requires s == "10.1.1.1"
    ensures Apply(PublicIPv4, s) == s
  {
    assert QuadAt(s, 0, "10", "1", "1", "1") by {
      assert WrittenAt(s, 0, "10") && WrittenAt(s, 3, "1") && WrittenAt(s, 5, "1") && WrittenAt(s, 7, "1");
    }
    assert IsPrivate("10", "1");
    PrivateAddressCopied(s, 0, "10", "1", "1", "1", |s|);
    assert s[0..|s|] == s;
  }
}
