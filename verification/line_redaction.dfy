/** What the rule table does to whole configuration lines: a username line,
    whose secret the first rule already hides, an SNMP community line, which
    only the community rule touches, and addresses on their own, which only
    the address and MAC rules can touch. */
module LineRedaction {
  import opened Text
  import opened Maybe
  import opened Patterns
  import opened Sanitizer
  import opened Redaction
  import opened AddressScan

  /** A match of the first rule holds ` \d` after `secret` or `password`. */
  lemma PasswordNeeds(s: string, k: nat)
    requires k < |s| && MatchAt(PasswordSecret, s, k).Some?
    ensures || (k + 9 < |s| && s[k + 7] == 'd' && s[k + 8] == ' ' && IsDigit(s[k + 9]))
            || (k + 7 < |s| && s[k + 5] == 't' && s[k + 6] == ' ' && IsDigit(s[k + 7]))
  {
    var w := s[k..];
    if StartsAt(w, 0, "password ") {
      assert w[..9][7] == 'd' && w[..9][8] == ' ';
      assert DigitRun(w, 9) > 0;
    } else {
      assert w[..7][5] == 't' && w[..7][6] == ' ';
      assert DigitRun(w, 7) > 0;
    }
  }

  /** `username U privilege N `: the head of a username line, up to its
      `secret`. */
  function UserHead(u: string, n: string): string {
    "username " + u + " privilege " + n + " "
  }

  /** Where the characters of a username line come from, around position `j`. */
  lemma UsernameLineAt(u: string, n: string, m: string, h: string, rest: string, j: int)
    ensures var x := UserHead(u, n);
      var s := x + ("secret " + m + " " + h + rest);
      && (0 <= j < 8 ==> s[j] == "username"[j])
      && (j == 8 ==> s[j - 1] == 'e')
      && (9 <= j < 9 + |u| ==> s[j] == u[j - 9])
      && (j == 9 + |u| ==> s[j + 1] == 'p')
      && (10 + |u| <= j < 19 + |u| ==> s[j] == "privilege"[j - 10 - |u|])
      && (j == 19 + |u| ==> s[j - 1] == 'e')
      && (20 + |u| <= j < |x| - 1 ==> s[j] == n[j - 20 - |u|])
      && (j == |x| - 1 ==> s[j + 1] == 's')
      && (|x| <= j < |x| + 6 ==> s[j] == "secret"[j - |x|])
      && (j == |x| + 6 ==> s[j - 1] == 't')
      && (j == |x| + 7 && |m| > 0 ==> s[j] == m[0])
  {
    var x := UserHead(u, n);
    var s := x + ("secret " + m + " " + h + rest);
    if 0 <= j < 8 {
      assert s[j] == "username "[j];
    } else if j == 8 {
      assert s[j - 1] == "username "[7];
    } else if 9 <= j < 9 + |u| {
      assert s[j] == u[j - 9];
    } else if j == 9 + |u| {
      assert s[j + 1] == " privilege "[1];
    } else if 10 + |u| <= j < 19 + |u| {
      assert s[j] == " privilege "[j - 9 - |u|];
    } else if j == 19 + |u| {
      assert s[j - 1] == " privilege "[9];
    } else if 20 + |u| <= j < |x| - 1 {
      assert s[j] == n[j - 20 - |u|];
    } else if j == |x| - 1 {
      assert s[j + 1] == "secret "[0];
    } else if |x| <= j < |x| + 6 {
      assert s[j] == "secret "[j - |x|];
    } else if j == |x| + 6 {
      assert s[j - 1] == "secret "[5];
    } else if j == |x| + 7 && |m| > 0 {
      assert s[j] == m[0];
    }
  }

  /** In a username line, every space before the hash that a digit follows
      comes after `username`, `privilege` or `secret`. */
  lemma UsernameSpaces(u: string, n: string, m: string, h: string, rest: string, j: nat)
    requires Token(u) && Digits(n) && Digits(m)
    requires var s := UserHead(u, n) + ("secret " + m + " " + h + rest);
      1 <= j < |UserHead(u, n)| + 8 && j + 1 < |s| && s[j] == ' ' && IsDigit(s[j + 1])
    ensures var s := UserHead(u, n) + ("secret " + m + " " + h + rest);
      s[j - 1] == if j == |UserHead(u, n)| + 6 then 't' else 'e'
  {
    UsernameLineAt(u, n, m, h, rest, j);
  }

  lemma UsernameHeadUnmatched(u: string, n: string, m: string, h: string, rest: string)
    requires Token(u) && Digits(n) && Digits(m)
    ensures var s := UserHead(u, n) + ("secret " + m + " " + h + rest);
      NoMatchBetween(PasswordSecret, s, 0, |UserHead(u, n)|)
  {
    var x := UserHead(u, n);
    var s := x + ("secret " + m + " " + h + rest);
    forall k | 0 <= k < |x| ensures MatchAt(PasswordSecret, s, k).None? {
      if MatchAt(PasswordSecret, s, k).Some? {
        PasswordNeeds(s, k);
        if k + 9 < |s| && s[k + 7] == 'd' && s[k + 8] == ' ' && IsDigit(s[k + 9]) {
          UsernameSpaces(u, n, m, h, rest, k + 8);
        } else {
          UsernameSpaces(u, n, m, h, rest, k + 6);
        }
      }
    }
  }

  /** The scan copies the head of a username line. */
  lemma UsernameHeadCopied(u: string, n: string, m: string, h: string, rest: string)
    requires Token(u) && Digits(n) && Digits(m)
    ensures var s := UserHead(u, n) + ("secret " + m + " " + h + rest);
      Apply(PasswordSecret, s) == UserHead(u, n) + SubFrom(PasswordSecret, s, |UserHead(u, n)|)
  {
    var x := UserHead(u, n);
    var s := x + ("secret " + m + " " + h + rest);
    UsernameHeadUnmatched(u, n, m, h, rest);
    SubFromSkips(PasswordSecret, s, 0, |x|);
    assert s[0..|x|] == x;
  }

  /** `secret `, a numeric tag, one space and a token at `i`: the first rule
      replaces them, and the scan resumes after the token. */
  lemma SecretReplacedAt(s: string, i: nat, a: nat, b: nat)
    requires StartsAt(s, i, "secret ") && a >= 1 && b >= 1 && i + 8 + a + b <= |s|
    requires forall j :: i + 7 <= j < i + 7 + a ==> IsDigit(s[j])
    requires s[i + 7 + a] == ' '
    requires forall j :: i + 8 + a <= j < i + 8 + a + b ==> !IsSpace(s[j])
    requires i + 8 + a + b == |s| || IsSpace(s[i + 8 + a + b])
    ensures SubFrom(PasswordSecret, s, i) == "secret " + HiddenPassword + SubFrom(PasswordSecret, s, i + 8 + a + b)
  {
    var w := s[i..];
    assert w[..7] == s[i..i + 7];
    DigitRunIs(w, 7, a);
    NonSpaceRunIs(w, 8 + a, b);
    CredentialFront(w, "secret ", 8 + a + b);
    assert MatchAt(PasswordSecret, s, i) == Some(Hit(i + 8 + a + b, "secret " + HiddenPassword));
    SubFromReplaces(PasswordSecret, s, i);
  }

  /** `secret `, a numeric tag of `a` digits, one space and a token of `b`
      characters ended by whitespace or the end of the text, at `i` in `s`. */
  predicate SecretLayout(s: string, i: nat, a: nat, b: nat) {
    && StartsAt(s, i, "secret ") && a >= 1 && b >= 1 && i + 8 + a + b <= |s|
    && (forall j :: i + 7 <= j < i + 7 + a ==> IsDigit(s[j]))
    && s[i + 7 + a] == ' '
    && (forall j :: i + 8 + a <= j < i + 8 + a + b ==> !IsSpace(s[j]))
    && (i + 8 + a + b == |s| || IsSpace(s[i + 8 + a + b]))
  }

  /** Where the tag and the hash of a username line stand. */
  lemma UsernameTail(u: string, n: string, m: string, h: string, rest: string)
    requires Digits(m) && Token(h) && Delimited(rest)
    ensures SecretLayout(UserHead(u, n) + ("secret " + m + " " + h + rest), |UserHead(u, n)|, |m|, |h|)
  {
    var x := UserHead(u, n);
    var y := "secret " + m + " " + h + rest;
    var s := x + y;
    var i := |x|;
    assert s[i..i + 7] == "secret ";
    forall j | i + 7 <= j < i + 7 + |m| ensures IsDigit(s[j]) {
      assert s[j] == m[j - i - 7];
    }
    forall j | i + 8 + |m| <= j < i + 8 + |m| + |h| ensures !IsSpace(s[j]) {
      assert s[j] == h[j - i - 8 - |m|];
    }
    if i + 8 + |m| + |h| < |s| {
      assert s[i + 8 + |m| + |h|] == rest[0];
    }
  }

  /** A prefix `x` that holds no match is copied, then whatever the scan
      does from the end of `x`. */
  lemma Compose(r: Rule, s: string, x: string, mid: string, e: nat)
    requires |x| <= e <= |s| && s[..|x|] == x
    requires NoMatchBetween(r, s, 0, |x|)
    requires SubFrom(r, s, |x|) == mid + SubFrom(r, s, e)
    ensures Apply(r, s) == x + mid + SubFrom(r, s, e)
  {
    SubFromSkips(r, s, 0, |x|);
    assert s[0..|x|] == s[..|x|];
    AppendAssoc(x, mid, SubFrom(r, s, e));
  }

  /** A scan that finds no match before `x` ends and then `secret `, a tag
      and a token. */
  lemma SecretAfter(x: string, y: string, a: nat, b: nat)
    requires NoMatchBetween(PasswordSecret, x + y, 0, |x|)
    requires SecretLayout(x + y, |x|, a, b)
    ensures Apply(PasswordSecret, x + y) == x + ("secret " + HiddenPassword) + SubFrom(PasswordSecret, x + y, |x| + 8 + a + b)
  {
    var s := x + y;
    SecretReplacedAt(s, |x|, a, b);
    assert s[..|x|] == x;
    Compose(PasswordSecret, s, x, "secret " + HiddenPassword, |x| + 8 + a + b);
  }

  /** The same when the token ends the text: nothing follows the
      placeholder. */
  lemma SecretLast(s: string, x: string, a: nat, b: nat)
    requires |x| + 8 + a + b == |s|
    requires NoMatchBetween(PasswordSecret, s, 0, |x|) && s[..|x|] == x
    requires SecretLayout(s, |x|, a, b)
    ensures Apply(PasswordSecret, s) == x + ("secret " + HiddenPassword)
  {
    var y := s[|x|..];
    assert x + y == s;
    SecretAfter(x, y, a, b);
    assert SubFrom(PasswordSecret, s, |s|) == [];
  }

  /** `username U privilege N secret M H` comes out of the first rule as
      `username U privilege N secret <HIDDEN_PASSWORD>`: the first rule takes
      the tag and the hash before the username rule can see them. */
  lemma UsernameLineRedacted(u: string, n: string, m: string, h: string)
    requires Token(u) && Digits(n) && Digits(m) && Token(h)
    ensures Apply(PasswordSecret, UserHead(u, n) + ("secret " + m + " " + h))
         == UserHead(u, n) + ("secret " + HiddenPassword)
  {
    var x := UserHead(u, n);
    var s := x + ("secret " + m + " " + h);
    assert s == x + ("secret " + m + " " + h + []);
    UsernameHeadUnmatched(u, n, m, h, []);
    UsernameTail(u, n, m, h, []);
    assert s[..|x|] == x;
    SecretLast(s, x, |m|, |h|);
  }

  /** No space in `s` is followed by a digit or a `p`. */
  predicate QuietSpaces(s: string) {
    forall j :: 0 <= j < |s| - 1 && s[j] == ' ' ==> !IsDigit(s[j + 1]) && s[j + 1] != 'p'
  }

  /** `s` holds no digit and no `.`. */
  predicate NoDigitOrDot(s: string) {
    forall j :: 0 <= j < |s| ==> !IsDigit(s[j]) && s[j] != '.'
  }

  /** Where no space is followed by a digit, the first rule finds nothing. */
  lemma PasswordIdle(s: string, k: nat)
    requires k < |s| && QuietSpaces(s)
    ensures MatchAt(PasswordSecret, s, k).None?
  {
    if MatchAt(PasswordSecret, s, k).Some? {
      PasswordNeeds(s, k);
    }
  }

  /** A match of the encrypted-password rule holds ` p` at `k + 9`. */
  lemma EncryptedNeeds(w: string)
    requires MatchFront(EncryptedPassword, w).Some?
    ensures 10 < |w| && w[9] == ' ' && w[10] == 'p'
  {
    assert w[..19][9] == ' ' && w[..19][10] == 'p';
  }

  /** Where no space is followed by a `p`, the encrypted-password rule finds
      nothing. */
  lemma EncryptedIdle(s: string, k: nat)
    requires k < |s| && QuietSpaces(s)
    ensures MatchAt(EncryptedPassword, s, k).None?
  {
    if MatchAt(EncryptedPassword, s, k).Some? {
      EncryptedNeeds(s[k..]);
    }
  }

  /** ` privilege ` at `p` puts ` p` there. */
  lemma PrivilegeAt(w: string, p: nat)
    requires StartsAt(w, p, " privilege ")
    ensures p + 1 < |w| && w[p] == ' ' && w[p + 1] == 'p'
  {
    assert w[p..p + 11][0] == ' ' && w[p..p + 11][1] == 'p';
  }

  /** Where no space is followed by a `p`, the username rule finds nothing. */
  lemma UsernameIdle(s: string, k: nat)
    requires k < |s| && QuietSpaces(s)
    ensures MatchAt(UsernameSecret, s, k).None?
  {
    if MatchAt(UsernameSecret, s, k).Some? {
      var w := s[k..];
      PrivilegeAt(w, 9 + NonSpaceRun(w, 9));
    }
  }

  /** A line on which only the community rule can fire: before it, no space
      is followed by a digit or a `p`; after it, none is either, and there is
      no digit and no `.`. The whole table then does what the community rule
      does. */
  lemma CommunityOnly(s: string)
    requires QuietSpaces(s)
    requires QuietSpaces(Apply(SnmpCommunity, s)) && NoDigitOrDot(Apply(SnmpCommunity, s))
    ensures Sanitize(s) == Apply(SnmpCommunity, s)
  {
    var t := Apply(SnmpCommunity, s);
    forall k | 0 <= k < |s| ensures MatchAt(PasswordSecret, s, k).None? {
      PasswordIdle(s, k);
    }
    SubFromUnmatched(PasswordSecret, s, 0);
    forall k | 0 <= k < |s| ensures MatchAt(EncryptedPassword, s, k).None? {
      EncryptedIdle(s, k);
    }
    SubFromUnmatched(EncryptedPassword, s, 0);
    assert s[0..] == s;
    forall k | 0 <= k < |t| ensures MatchAt(UsernameSecret, t, k).None? {
      UsernameIdle(t, k);
    }
    SubFromUnmatched(UsernameSecret, t, 0);
    forall k | 0 <= k < |t| ensures MatchAt(PublicIPv4, t, k).None? {
      assert !IsDigit(t[k]);
    }
    SubFromUnmatched(PublicIPv4, t, 0);
    forall k | 0 <= k < |t| ensures MatchAt(DottedMac, t, k).None? {
    }
    SubFromUnmatched(DottedMac, t, 0);
    assert t[0..] == t;
    SanitizeIsTheTableInOrder(s);
  }

  /** Two texts without a space before a digit or a `p` make one, when the
      seam does not put one there either. */
  lemma QuietJoin(a: string, b: string)
    requires QuietSpaces(a) && QuietSpaces(b)
    requires |a| > 0 && |b| > 0 && a[|a| - 1] == ' ' ==> !IsDigit(b[0]) && b[0] != 'p'
    ensures QuietSpaces(a + b)
  {
    var s := a + b;
    forall j | 0 <= j < |s| - 1 && s[j] == ' ' ensures !IsDigit(s[j + 1]) && s[j + 1] != 'p' {
      if j < |a| - 1 {
        assert s[j] == a[j] && s[j + 1] == a[j + 1];
      } else if j == |a| - 1 {
        assert s[j + 1] == b[0];
      } else {
        assert s[j] == b[j - |a|] && s[j + 1] == b[j + 1 - |a|];
      }
    }
  }

  /** A token has no space at all. */
  lemma TokenQuiet(x: string)
    requires Token(x)
    ensures QuietSpaces(x)
  {
  }

  /** The community keywords put no digit or `p` after a space. */
  lemma KeywordsQuiet()
    ensures QuietSpaces("snmp-server community ")
  {
  }

  /** A community line with a token `x` and the `RO` keyword puts no digit or
      `p` after a space. */
  lemma CommunityLineQuiet(x: string, s: string)
    requires Token(x) && !IsDigit(x[0]) && x[0] != 'p'
    requires s == "snmp-server community " + x + " RO"
    ensures QuietSpaces(s)
  {
    KeywordsQuiet();
    TokenQuiet(x);
    QuietJoin("snmp-server community ", x);
    QuietJoin("snmp-server community " + x, " RO");
  }

  /** The typical community line, before redaction. */
  lemma SourceQuiet(s: string)
    requires s == "snmp-server community " + "MySecret123" + " RO"
    ensures QuietSpaces(s)
  {
    CommunityLineQuiet("MySecret123", s);
  }

  /** The typical community line, after the community rule. */
  lemma ResultQuiet(t: string)
    requires t == "snmp-server community " + HiddenCommunity + " RO"
    ensures QuietSpaces(t)
  {
    CommunityLineQuiet(HiddenCommunity, t);
  }

  /** The redacted community line holds no digit and no `.`. */
  lemma ResultPlain(t: string)
    requires t == "snmp-server community " + HiddenCommunity + " RO"
    ensures NoDigitOrDot(t)
  {
  }

  /** The community line of a typical configuration, through the whole
      table. */
  lemma CommunitySanitized(s: string)
    requires s == "snmp-server community " + "MySecret123" + " RO"
    ensures Sanitize(s) == "snmp-server community " + HiddenCommunity + " RO"
  {
    CommunityExample(s);
    SourceQuiet(s);
    ResultQuiet(Apply(SnmpCommunity, s));
    ResultPlain(Apply(SnmpCommunity, s));
    CommunityOnly(s);
  }

  /** `s` holds no lower-case letter. */
  predicate NoLowerCase(s: string) {
    forall j :: 0 <= j < |s| ==> !('a' <= s[j] <= 'z')
  }

  /** A credential rule leaves text without lower-case letters unchanged. */
  lemma KeywordRuleIdle(r: Rule, s: string)
    requires r != PublicIPv4 && r != DottedMac && NoLowerCase(s)
    ensures Apply(r, s) == s
  {
    forall k | 0 <= k < |s| ensures MatchAt(r, s, k).None? {
      KeywordNeedsLetter(r, s, k);
    }
    SubFromUnmatched(r, s, 0);
    assert s[0..] == s;
  }

  /** On text without lower-case letters, the whole table does what the
      address rule and then the MAC rule do. */
  lemma AddressRulesOnly(s: string)
    requires NoLowerCase(s)
    ensures Sanitize(s) == Apply(DottedMac, Apply(PublicIPv4, s))
  {
    KeywordRuleIdle(PasswordSecret, s);
    KeywordRuleIdle(EncryptedPassword, s);
    KeywordRuleIdle(SnmpCommunity, s);
    KeywordRuleIdle(UsernameSecret, s);
    SanitizeIsTheTableInOrder(s);
  }

  /** Text shorter than a MAC address is unchanged by the MAC rule. */
  lemma ShortMacFree(s: string)
    requires |s| < 14
    ensures Apply(DottedMac, s) == s
  {
    forall k | 0 <= k < |s| ensures MatchAt(DottedMac, s, k).None? {
    }
    SubFromUnmatched(DottedMac, s, 0);
    assert s[0..] == s;
  }

  /** `203.0.113.5/32` holds no lower-case letter. */
  lemma PrefixLengthPlain(s: string)
    requires s == "203.0.113.5/32"
    ensures NoLowerCase(s)
  {
  }

  /** The masked address with its prefix length holds no `.`. */
  lemma MaskedPrefixLengthKept(t: string)
    requires t == MaskedPublicIp + "/32"
    ensures Apply(DottedMac, t) == t
  {
    NoDotUntouched(t);
  }

  /** A public address with a prefix length, through the whole table:
      `203.0.113.5/32` becomes `<MASKED_PUBLIC_IP>/32`. */
  lemma PrefixLengthSanitized(s: string)
    requires s == "203.0.113.5/32"
    ensures Sanitize(s) == MaskedPublicIp + "/32"
  {
    PrefixLengthPlain(s);
    AddressRulesOnly(s);
    WithPrefixLength(s);
    MaskedPrefixLengthKept(Apply(PublicIPv4, s));
  }

  /** A private address on its own, through the whole table: `10.1.1.1`
      comes out unchanged. */
  lemma PrivateAddressSanitized(s: string)
    requires s == "10.1.1.1"
    ensures Sanitize(s) == s
  {
    AddressRulesOnly(s);
    PrivateAlone(s);
    ShortMacFree(s);
  }
}
