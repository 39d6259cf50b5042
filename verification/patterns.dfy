/** The six redaction patterns of `sanitize_output`, one matcher per pattern.
    Each matcher answers what the regular-expression engine answers when it
    tries the pattern at one position: no match, or a match ending at `end`
    whose replacement (with `\1` already filled in) is `text`.
    The engine tries the longest run of each quantifier first. When the
    longest run completes the match, that is the match returned; when it does
    not, no shorter run can complete it either, because a shorter run is
    followed by another character of its own class where the pattern wants a
    space, a dot or a word boundary. So each matcher takes the maximal run at
    each step. */
module Patterns {
  import opened Text
  import opened Maybe

  /** A match ending at `end` (exclusive), to be replaced by `text`. */
  datatype Hit = Hit(end: nat, text: string)

  datatype Rule =
    | PasswordSecret      // (password|secret) \d+ \S+        -> \1 <HIDDEN_PASSWORD>
    | EncryptedPassword   // (encrypted password) \S+         -> \1 <HIDDEN_PASSWORD>
    | SnmpCommunity       // (snmp-server community) \S+      -> \1 <HIDDEN_COMMUNITY>
    | UsernameSecret      // (username \S+ privilege \d+ secret \d+) \S+ -> \1 <HIDDEN_SECRET>
    | PublicIPv4          // a dotted quad outside 10/8, 172.16-31, 192.168 -> <MASKED_PUBLIC_IP>
    | DottedMac           // ([0-9A-Fa-f]{4}\.){2}[0-9A-Fa-f]{4} -> <MASKED_MAC>

  const HiddenPassword := "<HIDDEN_PASSWORD>"
  const HiddenCommunity := "<HIDDEN_COMMUNITY>"
  const HiddenSecret := "<HIDDEN_SECRET>"
  const MaskedPublicIp := "<MASKED_PUBLIC_IP>"
  const MaskedMac := "<MASKED_MAC>"

  /** `(password|secret) \d+ \S+` at the front of `w`: a keyword, one space,
      a numeric tag, one space and a token; keyword and placeholder replace
      all of it. */
  function MatchPasswordSecret(w: string): (m: Option<Hit>)
    ensures m.Some? ==> 0 < m.value.end <= |w|
    ensures m.Some? ==>
      || (StartsAt(w, 0, "password ") && m.value.text == "password " + HiddenPassword)
      || (StartsAt(w, 0, "secret ") && m.value.text == "secret " + HiddenPassword)
    ensures m.Some? ==> m.value.end == |w| || IsSpace(w[m.value.end])
  {
    if StartsAt(w, 0, "password ") then
      match NumberThenToken(w, 9)
      case None => None
      case Some(e) => Some(Hit(e, "password " + HiddenPassword))
    else if StartsAt(w, 0, "secret ") then
      match NumberThenToken(w, 7)
      case None => None
      case Some(e) => Some(Hit(e, "secret " + HiddenPassword))
    else None
  }

  /** `\d+ \S+` at `j`: where it ends, if it is there. */
  function NumberThenToken(w: string, j: nat): (e: Option<nat>)
    requires j <= |w|
    ensures e.Some? ==> j < e.value <= |w|
    ensures e.Some? ==> e.value == |w| || IsSpace(w[e.value])
  {
    var d := DigitRun(w, j);
    var q := j + d;
    if d == 0 || !(q < |w| && w[q] == ' ') then None
    else
      var x := NonSpaceRun(w, q + 1);
      if x == 0 then None else Some(q + 1 + x)
  }

  /** `(encrypted password) \S+` at the front of `w`. */
  function MatchEncryptedPassword(w: string): (m: Option<Hit>)
    ensures m.Some? ==> 19 < m.value.end <= |w| && StartsAt(w, 0, "encrypted password ")
    ensures m.Some? ==> m.value.text == "encrypted password " + HiddenPassword
    ensures m.Some? ==> m.value.end == |w| || IsSpace(w[m.value.end])
  {
    if !StartsAt(w, 0, "encrypted password ") then None
    else
      var x := NonSpaceRun(w, 19);
      if x == 0 then None else Some(Hit(19 + x, "encrypted password " + HiddenPassword))
  }

  /** `(snmp-server community) \S+` at the front of `w`. */
  function MatchCommunity(w: string): (m: Option<Hit>)
    ensures m.Some? ==> 22 < m.value.end <= |w| && StartsAt(w, 0, "snmp-server community ")
    ensures m.Some? ==> m.value.text == "snmp-server community " + HiddenCommunity
    ensures m.Some? ==> m.value.end == |w| || IsSpace(w[m.value.end])
  {
    if !StartsAt(w, 0, "snmp-server community ") then None
    else
      var x := NonSpaceRun(w, 22);
      if x == 0 then None else Some(Hit(22 + x, "snmp-server community " + HiddenCommunity))
  }

  /** `(username \S+ privilege \d+ secret \d+) \S+` at the front of `w`: the
      first group keeps everything up to the second number; only the final
      token is hidden. */
  function MatchUsernameSecret(w: string): (m: Option<Hit>)
    ensures m.Some? ==> 0 < m.value.end <= |w| && UsernameHead(w)
  {
    if !UsernameHead(w) then None
    else
      var p2 := SecretPos(w);
      match NumberThenToken(w, p2 + 8)
      case None => None
      case Some(e) => Some(Hit(e, w[..p2 + 8 + DigitRun(w, p2 + 8)] + " " + HiddenSecret))
  }

  /** `username \S+ privilege \d+ secret ` at the front of `w`. */
  predicate UsernameHead(w: string) {
    && StartsAt(w, 0, "username ")
    && var p := 9 + NonSpaceRun(w, 9);
    && p > 9 && StartsAt(w, p, " privilege ")
    && var p2 := p + 11 + DigitRun(w, p + 11);
    && p2 > p + 11 && StartsAt(w, p2, " secret ")
  }

  /** Where ` secret ` stands in a username head. */
  function SecretPos(w: string): (p2: nat)
    requires UsernameHead(w)
    ensures p2 + 8 <= |w| && StartsAt(w, p2, " secret ")
  {
    var p := 9 + NonSpaceRun(w, 9);
    p + 11 + DigitRun(w, p + 11)
  }

  /** The negative lookahead `(?!(?:10|172\.(?:1[6-9]|2\d|3[01])|192\.168)\.)`:
      the text at `i` begins with `10.`, with `172.` followed by 16 to 31 and a
      dot, or with `192.168.`. */
  predicate PrivateLookahead(s: string, i: nat) {
    || StartsAt(s, i, "10.")
    || (StartsAt(s, i, "172.") && i + 7 <= |s| && SecondOctet172(s[i + 4], s[i + 5]) && s[i + 6] == '.')
    || StartsAt(s, i, "192.168.")
  }

  /** `1[6-9]|2\d|3[01]` */
  predicate SecondOctet172(a: char, b: char) {
    || (a == '1' && '6' <= b <= '9')
    || (a == '2' && IsDigit(b))
    || (a == '3' && (b == '0' || b == '1'))
  }

  /** `\d{1,3}(\.\d{1,3}){n-1}` at `i`: where `n` dot-separated runs of one
      to three digits end, if they are there. */
  function DottedRuns(s: string, i: nat, n: nat): (e: Option<nat>)
    requires i <= |s| && n >= 1
    ensures e.Some? ==> i < e.value <= |s| && IsDigit(s[e.value - 1])
    ensures e.Some? ==> e.value == |s| || !IsDigit(s[e.value])
    decreases n
  {
    var a := DigitRun(s, i);
    if !(1 <= a <= 3) then None
    else if n == 1 then Some(i + a)
    else if i + a < |s| && s[i + a] == '.' then DottedRuns(s, i + a + 1, n - 1)
    else None
  }

  /** `\b(?!private)\d{1,3}\.(?:\d{1,3}\.){2}\d{1,3}\b` */
  function MatchPublicIPv4(s: string, i: nat): (m: Option<Hit>)
    requires i <= |s|
    ensures m.Some? ==> i < m.value.end <= |s| && m.value.text == MaskedPublicIp
    ensures m.Some? ==> IsDigit(s[i]) && (i == 0 || !IsWord(s[i - 1])) && !PrivateLookahead(s, i)
    ensures m.Some? ==> m.value.end == |s| || !IsWord(s[m.value.end])
  {
    if !(i < |s| && IsDigit(s[i])) || (i > 0 && IsWord(s[i - 1])) || PrivateLookahead(s, i) then None
    else
      match DottedRuns(s, i, 4)
      case None => None
      case Some(e) => if e < |s| && IsWord(s[e]) then None else Some(Hit(e, MaskedPublicIp))
  }

  /** `[0-9A-Fa-f]{4}(\.[0-9A-Fa-f]{4}){n-1}` at `i`: exactly four hex digits
      per group, no boundary required. */
  function HexGroups(w: string, i: nat, n: nat): (e: Option<nat>)
    requires i <= |w| && n >= 1
    ensures e.Some? ==> e.value == i + 5 * n - 1 <= |w|
    decreases n
  {
    if !(i + 4 <= |w| && IsHex(w[i]) && IsHex(w[i + 1]) && IsHex(w[i + 2]) && IsHex(w[i + 3])) then None
    else if n == 1 then Some(i + 4)
    else if i + 4 < |w| && w[i + 4] == '.' then HexGroups(w, i + 5, n - 1)
    else None
  }

  /** `([0-9A-Fa-f]{4}\.){2}[0-9A-Fa-f]{4}` at the front of `w`. */
  function MatchDottedMac(w: string): (m: Option<Hit>)
    ensures m.Some? ==> m.value == Hit(14, MaskedMac) && 14 <= |w|
    ensures m.Some? ==> w[4] == '.' && w[9] == '.'
  {
    match HexGroups(w, 0, 3)
    case None => None
    case Some(e) => Some(Hit(e, MaskedMac))
  }

  /** A hit found on a suffix, moved `n` characters to the right. */
  function Moved(m: Option<Hit>, n: nat): (r: Option<Hit>)
    ensures r.Some? <==> m.Some?
    ensures m.Some? ==> r.value.end == m.value.end + n && r.value.text == m.value.text
  {
    match m
    case None => None
    case Some(h) => Some(Hit(h.end + n, h.text))
  }

  /** The patterns without a look-behind, tried at the front of `w`. */
  function MatchFront(r: Rule, w: string): (m: Option<Hit>)
    requires r != PublicIPv4
    ensures m.Some? ==> 0 < m.value.end <= |w|
  {
    match r
    case PasswordSecret => MatchPasswordSecret(w)
    case EncryptedPassword => MatchEncryptedPassword(w)
    case SnmpCommunity => MatchCommunity(w)
    case UsernameSecret => MatchUsernameSecret(w)
    case DottedMac => MatchDottedMac(w)
  }

  /** Trying rule `r` at position `i`: the public-address rule also looks at
      the character before `i`; the others see only the text from `i` on. */
  function MatchAt(r: Rule, s: string, i: nat): (m: Option<Hit>)
    requires i <= |s|
    ensures m.Some? ==> i < m.value.end <= |s|
  {
    if r == PublicIPv4 then MatchPublicIPv4(s, i) else Moved(MatchFront(r, s[i..]), i)
  }
}
