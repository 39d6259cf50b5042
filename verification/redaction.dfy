/** What the credential and MAC rules of `sanitize_output` do to the text they
    match, and which text no rule touches at all. */
module Redaction {
  import opened Text
  import opened Maybe
  import opened Patterns
  import opened Sanitizer

  /** A non-empty run of digits, what `\d+` takes. */
  predicate Digits(t: string) {
    |t| > 0 && forall j :: 0 <= j < |t| ==> IsDigit(t[j])
  }

  /** A non-empty run of non-whitespace, what `\S+` takes. */
  predicate Token(t: string) {
    |t| > 0 && forall j :: 0 <= j < |t| ==> !IsSpace(t[j])
  }

  /** What may follow a token so that `\S+` stops where it ends. */
  predicate Delimited(rest: string) {
    rest == [] || IsSpace(rest[0])
  }

  /** Four hex digits, one group of a dotted MAC address. */
  predicate HexGroup(g: string) {
    |g| == 4 && forall j :: 0 <= j < 4 ==> IsHex(g[j])
  }

  /** A rule without a look-behind that matches at the start of `s` emits its
      replacement first, and the scan goes on where the match ends. */
  lemma MaskedFront(r: Rule, s: string, n: nat, rep: string)
    requires r != PublicIPv4 && MatchFront(r, s) == Some(Hit(n, rep))
    ensures n <= |s| && Apply(r, s) == rep + SubFrom(r, s, n)
  {
    assert s[0..] == s;
    SubFromReplaces(r, s, 0);
  }

  /** A run of `t` at `i` in `s`, ended by whitespace or the end of `s`. */
  lemma TokenAt(s: string, i: nat, t: string)
    requires Token(t) && i + |t| <= |s| && s[i..i + |t|] == t
    requires i + |t| == |s| || IsSpace(s[i + |t|])
    ensures NonSpaceRun(s, i) == |t|
  {
    forall j | i <= j < i + |t| ensures !IsSpace(s[j]) {
      assert s[j] == t[j - i];
    }
    NonSpaceRunIs(s, i, |t|);
  }

  /** A run of digits `t` at `i` in `s`, followed by a space. */
  lemma DigitsAt(s: string, i: nat, t: string)
    requires Digits(t) && i + |t| < |s| && s[i..i + |t|] == t && s[i + |t|] == ' '
    ensures DigitRun(s, i) == |t|
  {
    forall j | i <= j < i + |t| ensures IsDigit(s[j]) {
      assert s[j] == t[j - i];
    }
    DigitRunIs(s, i, |t|);
  }

  /** `\d+ \S+` after the keyword of `w`, which ends at `j`: the tag, one
      space and the token from `t` on, up to the end of the token. */
  lemma TagAndToken(w: string, j: nat, tag: string, t: nat, token: string)
    requires Digits(tag) && Token(token) && t == j + |tag| + 1 && t + |token| <= |w|
    requires w[j..j + |tag|] == tag && w[j + |tag|] == ' ' && w[t..t + |token|] == token
    requires t + |token| == |w| || IsSpace(w[t + |token|])
    ensures NumberThenToken(w, j) == Some(t + |token|)
  {
    DigitsAt(w, j, tag);
    TokenAt(w, t, token);
  }

  /** The first rule takes `password ` or `secret ` at the front of `s`
      followed by a tag and a token. */
  lemma CredentialFront(s: string, kw: string, n: nat)
    requires kw == "password " || kw == "secret "
    requires StartsAt(s, 0, kw) && |kw| < n <= |s| && NumberThenToken(s, |kw|) == Some(n)
    ensures MatchFront(PasswordSecret, s) == Some(Hit(n, kw + HiddenPassword))
  {
    if kw == "secret " {
      assert s[0] == s[..7][0] == 's';
    }
  }

  /** The pieces of `kw + tag + " " + token + rest`, where they stand. */
  lemma Pieces(kw: string, tag: string, token: string, rest: string)
    ensures var s := kw + tag + " " + token + rest;
      var t := |kw| + |tag| + 1;
      && StartsAt(s, 0, kw) && t + |token| <= |s|
      && s[|kw|..|kw| + |tag|] == tag && s[|kw| + |tag|] == ' '
      && s[t..t + |token|] == token && s[t + |token|..] == rest
  {
    var s := kw + tag + " " + token + rest;
    assert s[..|kw|] == kw;
  }

  /** What the first rule matches on a line that starts with `password `, a
      numeric tag, one space and a token. */
  lemma PasswordMatch(tag: string, token: string, rest: string)
    requires Digits(tag) && Token(token) && Delimited(rest)
    ensures MatchFront(PasswordSecret, "password " + tag + " " + token + rest)
         == Some(Hit(10 + |tag| + |token|, "password " + HiddenPassword))
  {
    var s := "password " + tag + " " + token + rest;
    Pieces("password ", tag, token, rest);
    assert 10 + |tag| + |token| < |s| ==> s[10 + |tag| + |token|] == rest[0];
    TagAndToken(s, 9, tag, 10 + |tag|, token);
    CredentialFront(s, "password ", 10 + |tag| + |token|);
  }

  /** What the first rule matches on a line that starts with `secret `, a
      numeric tag, one space and a token. */
  lemma SecretMatch(tag: string, token: string, rest: string)
    requires Digits(tag) && Token(token) && Delimited(rest)
    ensures MatchFront(PasswordSecret, "secret " + tag + " " + token + rest)
         == Some(Hit(8 + |tag| + |token|, "secret " + HiddenPassword))
  {
    var s := "secret " + tag + " " + token + rest;
    Pieces("secret ", tag, token, rest);
    assert 8 + |tag| + |token| < |s| ==> s[8 + |tag| + |token|] == rest[0];
    TagAndToken(s, 7, tag, 8 + |tag|, token);
    CredentialFront(s, "secret ", 8 + |tag| + |token|);
  }

  /** A keyword not followed by digits is not a credential: the tag is
      required. */
  lemma PasswordNeedsTag(s: string)
    requires StartsAt(s, 0, "password ") && (|s| == 9 || !IsDigit(s[9]))
    ensures MatchPasswordSecret(s) == None
  {
  }

  /** The encrypted-password rule on a line that starts with `encrypted
      password ` and a token: the keywords stay, the token is replaced, and
      the scan resumes after it. */
  lemma EncryptedLine(s: string, token: string)
    requires StartsAt(s, 0, "encrypted password ") && Token(token)
    requires 19 + |token| <= |s| && s[19..19 + |token|] == token && Delimited(s[19 + |token|..])
    ensures Apply(EncryptedPassword, s) == "encrypted password " + HiddenPassword + SubFrom(EncryptedPassword, s, 19 + |token|)
  {
    var e := 19 + |token|;
    assert e < |s| ==> s[e] == s[e..][0];
    TokenAt(s, 19, token);
    MaskedFront(EncryptedPassword, s, e, "encrypted password " + HiddenPassword);
  }

  /** The community rule on a line that starts with `snmp-server community `
      and a token: the keywords stay, the community string is replaced, and
      the scan resumes after it. */
  lemma CommunityLine(s: string, token: string)
    requires StartsAt(s, 0, "snmp-server community ") && Token(token)
    requires 22 + |token| <= |s| && s[22..22 + |token|] == token && Delimited(s[22 + |token|..])
    ensures Apply(SnmpCommunity, s) == "snmp-server community " + HiddenCommunity + SubFrom(SnmpCommunity, s, 22 + |token|)
  {
    var e := 22 + |token|;
    assert e < |s| ==> s[e] == s[e..][0];
    TokenAt(s, 22, token);
    MaskedFront(SnmpCommunity, s, e, "snmp-server community " + HiddenCommunity);
  }

  /** Fewer characters than the community keywords and a token hold no
      community line, so they are copied through. */
  lemma CommunityTailCopied(s: string, i: nat)
    requires i <= |s| && |s| - i <= 22
    ensures SubFrom(SnmpCommunity, s, i) == s[i..]
  {
    forall k | i <= k < |s| ensures MatchAt(SnmpCommunity, s, k).None? {
    }
    SubFromUnmatched(SnmpCommunity, s, i);
  }

  /** The community line of a typical configuration. */
  lemma CommunityExample(s: string)
    requires s == "snmp-server community " + "MySecret123" + " RO"
    ensures Apply(SnmpCommunity, s) == "snmp-server community " + HiddenCommunity + " RO"
  {
    assert s[..22] == "snmp-server community ";
    assert s[22..33] == "MySecret123";
    assert s[33..] == " RO";
    assert Token("MySecret123");
    CommunityLine(s, "MySecret123");
    CommunityTailCopied(s, 33);
  }

  /** Three dot-separated groups of four hex digits at the start of the text
      become the MAC placeholder, whatever follows them; the scan resumes after
      the third group. */
  lemma MacLine(g1: string, g2: string, g3: string, rest: string)
    requires HexGroup(g1) && HexGroup(g2) && HexGroup(g3)
    ensures var s := g1 + "." + g2 + "." + g3 + rest;
      Apply(DottedMac, s) == MaskedMac + SubFrom(DottedMac, s, 14)
  {
    var s := g1 + "." + g2 + "." + g3 + rest;
    assert s[..4] == g1 && s[4] == '.' && s[5..9] == g2 && s[9] == '.' && s[10..14] == g3;
    assert IsHex(s[0]) && IsHex(s[1]) && IsHex(s[2]) && IsHex(s[3]);
    assert IsHex(s[5]) && IsHex(s[6]) && IsHex(s[7]) && IsHex(s[8]);
    assert IsHex(s[10]) && IsHex(s[11]) && IsHex(s[12]) && IsHex(s[13]);
    assert HexGroups(s, 10, 1) == Some(14);
    assert HexGroups(s, 5, 2) == Some(14);
    assert HexGroups(s, 0, 3) == Some(14);
    MaskedFront(DottedMac, s, 14, MaskedMac);
  }

  /** A text without a `.` holds no dotted MAC: colon- or dash-separated MAC
      addresses come through the MAC rule unchanged. */
  lemma NoDotUntouched(s: string)
    requires forall j :: 0 <= j < |s| ==> s[j] != '.'
    ensures Apply(DottedMac, s) == s
  {
    forall k | 0 <= k < |s| ensures MatchAt(DottedMac, s, k).None? {
      if MatchAt(DottedMac, s, k).Some? {
        assert false;
      }
    }
    SubFromUnmatched(DottedMac, s, 0);
  }

  /** Text with no whitespace, no digit and no `.` is left alone by every
      rule: each pattern needs one of them (the keywords end in a space, the
      tags and addresses are digits, the MAC groups are dotted). */
  predicate InertText(s: string) {
    forall j :: 0 <= j < |s| ==> !IsSpace(s[j]) && !IsDigit(s[j]) && s[j] != '.'
  }

  /** Every match needs a whitespace, a digit or a `.` somewhere after its
      start. */
  lemma MatchNeedsMark(r: Rule, s: string, k: nat)
    requires k < |s|
    ensures MatchAt(r, s, k).Some? ==>
      exists j :: k <= j < |s| && (IsSpace(s[j]) || IsDigit(s[j]) || s[j] == '.')
  {
    if MatchAt(r, s, k).Some? {
      var w := s[k..];
      match r
      case PasswordSecret =>
        if StartsAt(w, 0, "password ") {
          assert w[..9][8] == ' ' == s[k + 8];
        } else {
          assert w[..7][6] == ' ' == s[k + 6];
        }
      case EncryptedPassword =>
        assert w[..19][9] == ' ' == s[k + 9];
      case SnmpCommunity =>
        assert w[..22][11] == ' ' == s[k + 11];
      case UsernameSecret =>
        assert w[..9][8] == ' ' == s[k + 8];
      case PublicIPv4 =>
        assert IsDigit(s[k]);
      case DottedMac =>
        assert w[4] == '.' == s[k + 4];
    }
  }

  /** No rule matches anywhere in inert text. */
  lemma InertUnmatched(r: Rule, s: string)
    requires InertText(s)
    ensures NoMatchFrom(r, s, 0)
  {
    forall k | 0 <= k < |s| ensures MatchAt(r, s, k).None? {
      MatchNeedsMark(r, s, k);
    }
  }

  /** Inert text comes through the whole table unchanged. */
  lemma InertTextUntouched(s: string)
    requires InertText(s)
    ensures Sanitize(s) == s
  {
    forall r ensures NoMatchFrom(r, s, 0) {
      InertUnmatched(r, s);
    }
    SanitizeUnmatched(s);
  }

  /** The five placeholders the table writes. */
  predicate IsPlaceholder(p: string) {
    p == HiddenPassword || p == HiddenCommunity || p == HiddenSecret || p == MaskedPublicIp || p == MaskedMac
  }

  /** Every placeholder is inert text. */
  lemma PlaceholderInertText(p: string)
    requires IsPlaceholder(p)
    ensures InertText(p)
  {
  }

  /** A placeholder on its own comes through `sanitize_output` unchanged. */
  lemma PlaceholderUntouched(p: string)
    requires IsPlaceholder(p)
    ensures Sanitize(p) == p
  {
    PlaceholderInertText(p);
    InertTextUntouched(p);
  }

  /** No digit, no lower-case letter and no `.`, and a last character that is
      not a hex digit: nothing any rule can start on or run through. */
  predicate Unreadable(p: string) {
    && |p| > 0 && !IsHex(p[|p| - 1])
    && forall j :: 0 <= j < |p| ==> !IsDigit(p[j]) && !('a' <= p[j] <= 'z') && p[j] != '.'
  }

  /** Every placeholder is unreadable to the rules. */
  lemma PlaceholderUnreadable(p: string)
    requires IsPlaceholder(p)
    ensures Unreadable(p)
  {
  }

  /** The keyword rules all start on a lower-case letter. */
  lemma KeywordFront(r: Rule, w: string)
    requires r != PublicIPv4 && r != DottedMac && MatchFront(r, w).Some?
    ensures |w| > 0 && 'a' <= w[0] <= 'z'
  {
    match r
    case PasswordSecret =>
      if StartsAt(w, 0, "password ") {
        assert w[..9][0] == 'p';
      } else {
        assert w[..7][0] == 's';
      }
    case EncryptedPassword =>
      assert w[..19][0] == 'e';
    case SnmpCommunity =>
      assert w[..22][0] == 's';
    case UsernameSecret =>
      assert w[..9][0] == 'u';
  }

  /** No keyword rule matches where there is no lower-case letter. */
  lemma KeywordNeedsLetter(r: Rule, s: string, k: nat)
    requires r != PublicIPv4 && r != DottedMac && k < |s| && !('a' <= s[k] <= 'z')
    ensures MatchAt(r, s, k).None?
  {
    if MatchFront(r, s[k..]).Some? {
      KeywordFront(r, s[k..]);
    }
  }

  /** No MAC address starts in a stretch without a `.` that ends on a
      character that is not a hex digit. */
  lemma MacNeedsDot(s: string, k: nat, e: nat)
    requires k < e <= |s| && !IsHex(s[e - 1])
    requires forall j :: k <= j < e ==> s[j] != '.'
    ensures MatchAt(DottedMac, s, k).None?
  {
  }

  /** Wherever a placeholder stands in a text, no rule finds a match that
      starts inside it. */
  lemma NoMatchStartsInPlaceholder(r: Rule, x: string, p: string, y: string, k: nat)
    requires IsPlaceholder(p) && |x| <= k < |x| + |p|
    ensures MatchAt(r, x + p + y, k).None?
  {
    var s := x + p + y;
    var e := |x| + |p|;
    PlaceholderUnreadable(p);
    assert s[k] == p[k - |x|];
    if r == PublicIPv4 {
      assert !IsDigit(s[k]);
    } else if r == DottedMac {
      assert s[e - 1] == p[|p| - 1];
      forall j | k <= j < e ensures s[j] != '.' {
        assert s[j] == p[j - |x|];
      }
      MacNeedsDot(s, k, e);
    } else {
      KeywordNeedsLetter(r, s, k);
    }
  }
}
