/** The username rule of `sanitize_output` (app.py:58) can never fire: every
    text it would match contains `secret \d+ \S+`, which the first rule
    (app.py:55) has already rewritten, and neither that rewrite nor the two
    rules after it can bring such a text back. */
module Shadowing {
  import opened Text
  import opened Maybe
  import opened Patterns
  import opened Sanitizer

  /** The first rule matches at the front of `w`. */
  predicate Pw(w: string) {
    MatchPasswordSecret(w).Some?
  }

  /** The first rule matches nowhere in `u`. */
  predicate NoPassword(u: string) {
    forall k :: 0 <= k < |u| ==> !Pw(u[k..])
  }

  /** The first rule matches nowhere in `t` at or after `i`. */
  predicate NoPasswordFrom(t: string, i: nat)
    requires i <= |t|
  {
    forall k :: i <= k < |t| ==> !Pw(t[k..])
  }

  /** The characters the first rule reads: keyword `kw`, a space, `n` digits,
      a space and the first character of the token. */
  predicate PwHead(w: string, kw: string, n: nat) {
    && (kw == "password" || kw == "secret")
    && n >= 1 && |kw| + n + 3 <= |w|
    && w[..|kw|] == kw && w[|kw|] == ' '
    && (forall j :: |kw| + 1 <= j < |kw| + 1 + n ==> IsDigit(w[j]))
    && w[|kw| + 1 + n] == ' ' && !IsSpace(w[|kw| + 2 + n])
  }

  /** The keyword a match of the first rule starts with. */
  function KeywordOf(w: string): (kw: string)
    ensures kw == "password" || kw == "secret"
  {
    if StartsAt(w, 0, "password ") then "password" else "secret"
  }

  /** A match of the first rule reads a head. */
  lemma HeadOfMatch(w: string)
    requires Pw(w)
    ensures PwHead(w, KeywordOf(w), DigitRun(w, |KeywordOf(w)| + 1))
  {
    var kw := KeywordOf(w);
    DigitRunDigits(w, |kw| + 1);
    assert w[..|kw| + 1][..|kw|] == w[..|kw|];
  }

  /** A head is a match of the first rule. */
  lemma MatchOfHead(w: string, kw: string, n: nat)
    requires PwHead(w, kw, n)
    ensures Pw(w)
  {
    if kw == "password" {
      NumberThenTokenOf(w, 9, n);
      assert w[..9] == kw + " ";
      assert StartsAt(w, 0, "password ");
    } else {
      NumberThenTokenOf(w, 7, n);
      assert w[..7] == kw + " ";
      assert StartsAt(w, 0, "secret ") && w[0] != 'p';
    }
  }

  /** `\d+ \S+` is there when its characters are. */
  lemma NumberThenTokenOf(w: string, j: nat, n: nat)
    requires n >= 1 && j + n + 1 < |w|
    requires forall p :: j <= p < j + n ==> IsDigit(w[p])
    requires w[j + n] == ' ' && !IsSpace(w[j + n + 1])
    ensures NumberThenToken(w, j).Some?
  {
    DigitRunIs(w, j, n);
    assert NonSpaceRun(w, j + n + 1) > 0;
  }

  /** A head depends only on its own characters. */
  lemma HeadPrefix(u: string, v: string, kw: string, n: nat)
    requires PwHead(u, kw, n)
    requires |kw| + n + 3 <= |v| && forall j :: 0 <= j < |kw| + n + 3 ==> u[j] == v[j]
    ensures PwHead(v, kw, n)
  {
    assert v[..|kw|] == u[..|kw|];
  }

  /** A replacement text without digits that ends in `>`: every placeholder
      the credential rules write is one. */
  predicate Inert(rep: string) {
    |rep| >= 2 && rep[|rep| - 1] == '>' && forall k :: 0 <= k < |rep| ==> !IsDigit(rep[k])
  }

  /** The first two characters of a credential replacement: `pa`, `se`, `en`
      or `sn`. No keyword of the first rule has such a pair after its first
      letter. */
  predicate LeadPair(c0: char, c1: char) {
    || (c0 == 'p' && c1 == 'a')
    || (c0 == 's' && c1 == 'e')
    || (c0 == 'e' && c1 == 'n')
    || (c0 == 's' && c1 == 'n')
  }

  /** No match of the first rule starts inside a replacement. */
  lemma InsideReplacement(rep: string, y: string, k: nat)
    requires Inert(rep) && k < |rep|
    ensures !Pw((rep + y)[k..])
  {
    var w := (rep + y)[k..];
    ReplacementTail(rep, y, k);
    if Pw(w) {
      HeadOfMatch(w);
      HeadShape(w, KeywordOf(w), DigitRun(w, |KeywordOf(w)| + 1));
    }
  }

  /** A head starts with lower-case letters and a space, then a digit. */
  lemma HeadShape(w: string, kw: string, n: nat)
    requires PwHead(w, kw, n)
    ensures forall j :: 0 <= j <= |kw| ==> w[j] == ' ' || 'a' <= w[j] <= 'z'
    ensures IsDigit(w[|kw| + 1])
  {
    forall j | 0 <= j < |kw| ensures 'a' <= w[j] <= 'z' {
      assert w[j] == w[..|kw|][j];
    }
  }

  /** Seen from inside a replacement, the text has no digit before the
      replacement's closing `>`. */
  lemma ReplacementTail(rep: string, y: string, k: nat)
    requires Inert(rep) && k < |rep|
    ensures var w := (rep + y)[k..]; |rep| - k <= |w| && w[|rep| - 1 - k] == '>'
    ensures var w := (rep + y)[k..]; forall j :: 0 <= j < |rep| - k ==> !IsDigit(w[j])
  {
  }

  /** A match of the first rule that would start before a replacement and run
      into it: the replacement's first two letters cannot sit inside the
      head, so the head ends at the replacement's first letter, which is also
      the first letter of the text it replaced. */
  lemma Straddle(x: string, rep: string, y: string, z: string)
    requires |x| >= 1 && |rep| >= 2 && |z| >= 1 && z[0] == rep[0]
    requires LeadPair(rep[0], rep[1])
    requires !Pw(x + z)
    ensures !Pw(x + rep + y)
  {
    var u := x + rep + y;
    var v := x + z;
    if Pw(u) {
      HeadOfMatch(u);
      var kw := KeywordOf(u);
      var n := DigitRun(u, |kw| + 1);
      if |kw| + n + 3 <= |x| + 1 {
        AgreeBefore(x, rep, y, z, |kw| + n + 3);
        HeadPrefix(u, v, kw, n);
        MatchOfHead(v, kw, n);
      } else {
        HeadSlots(u, kw, n, |x|);
      }
    }
  }

  /** Up to the first letter of the replacement, the rewritten text and the
      original read the same. */
  lemma AgreeBefore(x: string, rep: string, y: string, z: string, len: nat)
    requires |rep| >= 1 && |z| >= 1 && z[0] == rep[0] && len <= |x| + 1
    ensures len <= |x + z| && forall j :: 0 <= j < len ==> (x + rep + y)[j] == (x + z)[j]
  {
  }

  /** A lead pair fits nowhere in a head after its first character. */
  lemma HeadSlots(w: string, kw: string, n: nat, p: nat)
    requires PwHead(w, kw, n) && 1 <= p && p + 1 < |kw| + n + 3
    ensures !LeadPair(w[p], w[p + 1])
  {
    if p + 1 < |kw| {
      KeywordPairs(kw, p);
      assert w[p] == w[..|kw|][p] && w[p + 1] == w[..|kw|][p + 1];
    }
  }

  /** After its first letter, no keyword holds a lead pair. */
  lemma KeywordPairs(kw: string, p: nat)
    requires kw == "password" || kw == "secret"
    requires 1 <= p && p + 1 < |kw|
    ensures !LeadPair(kw[p], kw[p + 1])
  {
  }

  /** The credential rules write inert replacements that begin with the
      letter their match began with. */
  lemma ReplacementFacts(r: Rule, t: string, m: nat)
    requires r == PasswordSecret || r == EncryptedPassword || r == SnmpCommunity
    requires m < |t| && MatchAt(r, t, m).Some?
    ensures var rep := MatchAt(r, t, m).value.text;
      Inert(rep) && LeadPair(rep[0], rep[1]) && t[m] == rep[0]
  {
    var w := t[m..];
    assert t[m] == w[0];
    CredentialReplacementsInert();
  }

  /** The four credential replacements are inert. */
  lemma CredentialReplacementsInert()
    ensures Inert("password " + HiddenPassword) && Inert("secret " + HiddenPassword)
    ensures Inert("encrypted password " + HiddenPassword) && Inert("snmp-server community " + HiddenCommunity)
  {
    PlaceholderInert("password ", HiddenPassword);
    PlaceholderInert("secret ", HiddenPassword);
    PlaceholderInert("encrypted password ", HiddenPassword);
    PlaceholderInert("snmp-server community ", HiddenCommunity);
  }

  /** A keyword and a placeholder, neither with a digit, ending in `>`. */
  lemma PlaceholderInert(kw: string, ph: string)
    requires forall k :: 0 <= k < |kw| ==> !IsDigit(kw[k])
    requires forall k :: 0 <= k < |ph| ==> !IsDigit(ph[k])
    requires |ph| >= 2 && ph[|ph| - 1] == '>'
    ensures Inert(kw + ph)
  {
  }

  /** Where the scan from `i` first finds a match of `r` (`|s|` if nowhere). */
  function NextMatch(r: Rule, s: string, i: nat): (m: nat)
    requires i <= |s|
    ensures i <= m <= |s| && NoMatchBetween(r, s, i, m)
    ensures m < |s| ==> MatchAt(r, s, m).Some?
    decreases |s| - i
  {
    if i == |s| || MatchAt(r, s, i).Some? then i else NextMatch(r, s, i + 1)
  }

  /** Where the first rule finds nothing, no head is there. */
  lemma UnmatchedIsNoPassword(t: string, k: nat)
    requires k <= |t| && MatchAt(PasswordSecret, t, k).None?
    ensures !Pw(t[k..])
  {
  }

  /** Before the first match of the scan, the first rule matches nowhere:
      for the first rule because the scan found nothing there, for the others
      because the text had no such match to begin with. */
  lemma NoPasswordBefore(r: Rule, t: string, i: nat, m: nat)
    requires i <= m <= |t| && NoMatchBetween(r, t, i, m)
    requires r == PasswordSecret || NoPasswordFrom(t, i)
    ensures forall k :: i <= k < m ==> !Pw(t[k..])
  {
    forall k | i <= k < m ensures !Pw(t[k..]) {
      if r == PasswordSecret {
        UnmatchedIsNoPassword(t, k);
      }
    }
  }

  /** Text copied unchanged, then an inert replacement of a match that began
      with the same letter, then text free of matches: free of matches. */
  lemma NoPasswordAround(t: string, i: nat, m: nat, rep: string, rest: string)
    requires i <= m < |t| && Inert(rep) && LeadPair(rep[0], rep[1]) && t[m] == rep[0]
    requires forall k :: i <= k < m ==> !Pw(t[k..])
    requires NoPassword(rest)
    ensures NoPassword(t[i..m] + rep + rest)
  {
    var out := t[i..m] + rep + rest;
    var c := m - i;
    forall k | 0 <= k < |out| ensures !Pw(out[k..]) {
      if k >= c + |rep| {
        assert out[k..] == rest[k - c - |rep|..];
      } else if k >= c {
        assert out[k..] == (rep + rest)[k - c..];
        InsideReplacement(rep, rest, k - c);
      } else {
        var x := t[i + k..m];
        assert out[k..] == x + rep + rest;
        assert t[i + k..] == x + t[m..];
        Straddle(x, rep, rest, t[m..]);
      }
    }
  }

  /** The first rule matches nowhere in the output of the first rule, and the
      second and third rules keep a text free of such matches. */
  lemma {:induction false} NoPasswordAfter(r: Rule, t: string, i: nat)
    requires i <= |t|
    requires r == PasswordSecret || r == EncryptedPassword || r == SnmpCommunity
    requires r != PasswordSecret ==> NoPasswordFrom(t, i)
    ensures NoPassword(SubFrom(r, t, i))
    decreases |t| - i
  {
    var m := NextMatch(r, t, i);
    NoPasswordBefore(r, t, i, m);
    if m == |t| {
      SubFromUnmatched(r, t, i);
      forall k | 0 <= k < |t| - i ensures !Pw(t[i..][k..]) {
        assert t[i..][k..] == t[i + k..];
      }
    } else {
      var h := MatchAt(r, t, m).value;
      SubFromFirstMatch(r, t, i, m);
      ReplacementFacts(r, t, m);
      NoPasswordAfter(r, t, h.end);
      NoPasswordAround(t, i, m, h.text, SubFrom(r, t, h.end));
    }
  }

  /** Every match of the username rule holds `secret \d+ \S+`, a match of the
      first rule. */
  lemma UsernameHoldsPassword(t: string, k: nat)
    requires k <= |t| && MatchUsernameSecret(t[k..]).Some?
    ensures exists j :: k < j < |t| && Pw(t[j..])
  {
    var w := t[k..];
    var p2 := SecretPos(w);
    UsernameSecretHead(w, p2);
    assert w[p2 + 1..] == t[k + p2 + 1..];
  }

  /** The ` secret ` of a username match starts a match of the first rule. */
  lemma UsernameSecretHead(w: string, p2: nat)
    requires p2 + 8 <= |w| && StartsAt(w, p2, " secret ") && NumberThenToken(w, p2 + 8).Some?
    ensures Pw(w[p2 + 1..])
  {
    NumberThenTokenParts(w, p2 + 8);
    SecretHeadAt(w, p2, DigitRun(w, p2 + 8));
  }

  /** What `\d+ \S+` reads when it is there. */
  lemma NumberThenTokenParts(w: string, j: nat)
    requires j <= |w| && NumberThenToken(w, j).Some?
    ensures var d := DigitRun(w, j); d >= 1 && j + d + 1 < |w| && w[j + d] == ' ' && !IsSpace(w[j + d + 1])
  {
  }

  /** ` secret `, digits, a space and a non-space character at `p`: a match
      of the first rule one character further on. */
  lemma SecretHeadAt(w: string, p: nat, d: nat)
    requires p + 8 <= |w| && StartsAt(w, p, " secret ")
    requires d == DigitRun(w, p + 8) && d >= 1
    requires p + 8 + d < |w| && w[p + 8 + d] == ' '
    requires p + 8 + d + 1 < |w| && !IsSpace(w[p + 8 + d + 1])
    ensures Pw(w[p + 1..])
  {
    var v := w[p + 1..];
    DigitRunDigits(w, p + 8);
    assert w[p..p + 8] == " secret ";
    forall i | 0 <= i < 6 ensures v[i] == "secret"[i] {
      assert v[i] == w[p..p + 8][i + 1];
    }
    assert v[..6] == "secret";
    forall j | 7 <= j < 7 + d ensures IsDigit(v[j]) {
      assert v[j] == w[p + 1 + j];
    }
    assert v[6] == w[p..p + 8][7];
    assert PwHead(v, "secret", d);
    MatchOfHead(v, "secret", d);
  }

  /** On a text free of first-rule matches the username rule changes nothing. */
  lemma UsernameRuleIdle(u: string)
    requires NoPassword(u)
    ensures Apply(UsernameSecret, u) == u
  {
    forall k | 0 <= k < |u| ensures MatchAt(UsernameSecret, u, k).None? {
      if MatchUsernameSecret(u[k..]).Some? {
        UsernameHoldsPassword(u, k);
      }
    }
    SubFromUnmatched(UsernameSecret, u, 0);
  }

  /** The username rule of the table never changes the text it is given:
      after the first three rules no `secret \d+ \S+` is left for it. */
  lemma UsernameRuleIsDead(text: string)
    ensures var t3 := Apply(SnmpCommunity, Apply(EncryptedPassword, Apply(PasswordSecret, text)));
      Apply(UsernameSecret, t3) == t3
  {
    var t1 := Apply(PasswordSecret, text);
    NoPasswordAfter(PasswordSecret, text, 0);
    var t2 := Apply(EncryptedPassword, t1);
    NoPasswordAfter(EncryptedPassword, t1, 0);
    var t3 := Apply(SnmpCommunity, t2);
    NoPasswordAfter(SnmpCommunity, t2, 0);
    UsernameRuleIdle(t3);
  }

  /** Hence `sanitize_output` is the table without its username rule. */
  lemma SanitizeWithoutUsernameRule(text: string)
    ensures Sanitize(text) == Apply(DottedMac, Apply(PublicIPv4,
              Apply(SnmpCommunity, Apply(EncryptedPassword, Apply(PasswordSecret, text)))))
  {
    SanitizeIsTheTableInOrder(text);
    UsernameRuleIsDead(text);
  }
}
