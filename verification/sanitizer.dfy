/** `sanitize_output` (app.py): each rule of the table is applied as a global,
    leftmost, non-overlapping substitution (Python's `re.sub`) to the output of
    the rule before it. */
module Sanitizer {
  import opened Text
  import opened Maybe
  import opened Patterns

  /** The rule table, in the order the source lists it. */
  const Rules: seq<Rule> := [PasswordSecret, EncryptedPassword, SnmpCommunity, UsernameSecret, PublicIPv4, DottedMac]

  /** `re.sub` from position `i` on: where the rule matches, emit the
      replacement and resume after the match; elsewhere copy one character. */
  function SubFrom(r: Rule, s: string, i: nat): string
    requires i <= |s|
    decreases |s| - i
  {
    if i == |s| then []
    else match MatchAt(r, s, i)
      case None => [s[i]] + SubFrom(r, s, i + 1)
      case Some(h) => h.text + SubFrom(r, s, h.end)
  }

  /** `re.sub(pattern, replacement, s)` for one rule. */
  function Apply(r: Rule, s: string): string {
    SubFrom(r, s, 0)
  }

  /** The rules of `rs` applied in order, each to the previous one's output. */
  function ApplyAll(rs: seq<Rule>, s: string): string
    decreases |rs|
  {
    if rs == [] then s else Apply(rs[|rs| - 1], ApplyAll(rs[..|rs| - 1], s))
  }

  /** What `sanitize_output` returns. */
  function Sanitize(text: string): string {
    ApplyAll(Rules, text)
  }

  /** `sanitize_output`: the loop over the rule table, reassigning the text. */
  method SanitizeOutput(text: string) returns (sanitized: string)
    ensures sanitized == Sanitize(text)
    ensures sanitized == Apply(DottedMac, Apply(PublicIPv4, Apply(UsernameSecret,
              Apply(SnmpCommunity, Apply(EncryptedPassword, Apply(PasswordSecret, text))))))
  {
    sanitized := text;
    for k := 0 to |Rules|
      invariant sanitized == ApplyAll(Rules[..k], text)
    {
      assert Rules[..k + 1][..k] == Rules[..k];
      sanitized := Apply(Rules[k], sanitized);
    }
    assert Rules[..|Rules|] == Rules;
    SanitizeIsTheTableInOrder(text);
  }

  /** No position at or after `i` starts a match of `r`. */
  predicate NoMatchFrom(r: Rule, s: string, i: nat)
    requires i <= |s|
  {
    NoMatchBetween(r, s, i, |s|)
  }

  /** No position in `[i, m)` starts a match of `r`. */
  predicate NoMatchBetween(r: Rule, s: string, i: nat, m: nat)
    requires i <= m <= |s|
  {
    forall k :: i <= k < m ==> MatchAt(r, s, k).None?
  }

  /** Two adjacent stretches without matches make one. */
  lemma NoMatchJoin(r: Rule, s: string, i: nat, m: nat, e: nat)
    requires i <= m <= e <= |s| && NoMatchBetween(r, s, i, m) && NoMatchBetween(r, s, m, e)
    ensures NoMatchBetween(r, s, i, e)
  {
  }

  /** Text the rule does not match is copied unchanged. */
  lemma {:induction false} SubFromUnmatched(r: Rule, s: string, i: nat)
    requires i <= |s| && NoMatchFrom(r, s, i)
    ensures SubFrom(r, s, i) == s[i..]
    decreases |s| - i
  {
    if i < |s| {
      SubFromUnmatched(r, s, i + 1);
      assert s[i..] == [s[i]] + s[i + 1..];
    }
  }

  lemma AppendAssoc(a: string, b: string, c: string)
    ensures a + (b + c) == (a + b) + c
  {
  }

  /** One step of the scan where the rule does not match: copy a character. */
  lemma SubFromCopies(r: Rule, s: string, i: nat)
    requires i < |s| && MatchAt(r, s, i).None?
    ensures SubFrom(r, s, i) == [s[i]] + SubFrom(r, s, i + 1)
  {
  }

  /** One step of the scan where the rule matches: emit the replacement. */
  lemma SubFromReplaces(r: Rule, s: string, i: nat)
    requires i < |s| && MatchAt(r, s, i).Some?
    ensures SubFrom(r, s, i) == MatchAt(r, s, i).value.text + SubFrom(r, s, MatchAt(r, s, i).value.end)
  {
  }

  /** A stretch `[i, m)` that holds no match is copied through, and the scan
      resumes at `m`. */
  lemma {:induction false} SubFromSkips(r: Rule, s: string, i: nat, m: nat)
    requires i <= m <= |s| && NoMatchBetween(r, s, i, m)
    ensures SubFrom(r, s, i) == s[i..m] + SubFrom(r, s, m)
    decreases m - i
  {
    if i < m {
      SubFromCopies(r, s, i);
      SubFromSkips(r, s, i + 1, m);
      var rest := SubFrom(r, s, m);
      calc {
        SubFrom(r, s, i);
        [s[i]] + (s[i + 1..m] + rest);
        { AppendAssoc([s[i]], s[i + 1..m], rest); }
        ([s[i]] + s[i + 1..m]) + rest;
        { assert s[i..m] == [s[i]] + s[i + 1..m]; }
        s[i..m] + rest;
      }
    }
  }

  /** The scan from `j` passes through `i` when no match starting in `[j, i)`
      reaches past `i`: its output is the text `pre` emitted before `i`,
      followed by the output of the scan from `i`. */
  lemma {:induction false} SubFromReaches(r: Rule, s: string, j: nat, i: nat) returns (pre: string)
    requires j <= i <= |s|
    requires forall k :: j <= k < i && MatchAt(r, s, k).Some? ==> MatchAt(r, s, k).value.end <= i
    ensures SubFrom(r, s, j) == pre + SubFrom(r, s, i)
    decreases i - j
  {
    if j == i {
      pre := [];
    } else if MatchAt(r, s, j).None? {
      var tail := SubFromReaches(r, s, j + 1, i);
      SubFromCopies(r, s, j);
      AppendAssoc([s[j]], tail, SubFrom(r, s, i));
      pre := [s[j]] + tail;
    } else {
      var h := MatchAt(r, s, j).value;
      var tail := SubFromReaches(r, s, h.end, i);
      SubFromReplaces(r, s, j);
      AppendAssoc(h.text, tail, SubFrom(r, s, i));
      pre := h.text + tail;
    }
  }

  /** The leftmost match: when `r` first matches at `m`, the output is the text
      before `m`, the replacement, and the substitution continued after the
      match. */
  lemma SubFromFirstMatch(r: Rule, s: string, i: nat, m: nat)
    requires i <= m < |s| && NoMatchBetween(r, s, i, m)
    requires MatchAt(r, s, m).Some?
    ensures SubFrom(r, s, i) == s[i..m] + MatchAt(r, s, m).value.text + SubFrom(r, s, MatchAt(r, s, m).value.end)
  {
    SubFromSkips(r, s, i, m);
    SubFromReplaces(r, s, m);
  }

  /** Applying a table in two parts: the second part works on the first part's
      output. */
  lemma {:induction false} ApplyAllAppend(rs1: seq<Rule>, rs2: seq<Rule>, s: string)
    ensures ApplyAll(rs1 + rs2, s) == ApplyAll(rs2, ApplyAll(rs1, s))
    decreases |rs2|
  {
    if rs2 == [] {
      assert rs1 + rs2 == rs1;
    } else {
      var n := |rs2| - 1;
      assert (rs1 + rs2)[..|rs1 + rs2| - 1] == rs1 + rs2[..n];
      ApplyAllAppend(rs1, rs2[..n], s);
    }
  }

  /** The table is applied rule by rule in the listed order. */
  lemma SanitizeIsTheTableInOrder(text: string)
    ensures Sanitize(text) == Apply(DottedMac, Apply(PublicIPv4, Apply(UsernameSecret,
              Apply(SnmpCommunity, Apply(EncryptedPassword, Apply(PasswordSecret, text))))))
  {
    var t1 := [PasswordSecret];
    var t2 := t1 + [EncryptedPassword];
    var t3 := t2 + [SnmpCommunity];
    var t4 := t3 + [UsernameSecret];
    var t5 := t4 + [PublicIPv4];
    assert Rules == t5 + [DottedMac];
    assert ApplyAll(t1, text) == Apply(PasswordSecret, text) by { assert t1[..0] == []; }
    assert t2[..1] == t1 && t3[..2] == t2 && t4[..3] == t3 && t5[..4] == t4 && Rules[..5] == t5;
    assert ApplyAll(t2, text) == Apply(EncryptedPassword, ApplyAll(t1, text));
    assert ApplyAll(t3, text) == Apply(SnmpCommunity, ApplyAll(t2, text));
    assert ApplyAll(t4, text) == Apply(UsernameSecret, ApplyAll(t3, text));
    assert ApplyAll(t5, text) == Apply(PublicIPv4, ApplyAll(t4, text));
    assert ApplyAll(Rules, text) == Apply(DottedMac, ApplyAll(t5, text));
  }

  /** Text that no rule of `rs` matches anywhere comes back unchanged. */
  lemma {:induction false} ApplyAllUnmatched(rs: seq<Rule>, s: string)
    requires forall r :: r in rs ==> NoMatchFrom(r, s, 0)
    ensures ApplyAll(rs, s) == s
    decreases |rs|
  {
    if rs != [] {
      var n := |rs| - 1;
      assert forall r :: r in rs[..n] ==> r in rs;
      ApplyAllUnmatched(rs[..n], s);
      SubFromUnmatched(rs[n], s, 0);
    }
  }

  /** Pass-through: text that matches no rule of the table is returned as is. */
  lemma SanitizeUnmatched(text: string)
    requires forall r :: NoMatchFrom(r, text, 0)
    ensures Sanitize(text) == text
  {
    ApplyAllUnmatched(Rules, text);
  }
}
