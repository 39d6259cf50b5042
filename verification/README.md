# AI NetOps agent: redaction, fetch and analysis workflow

This project models the logic of `app.py`, a small network-operations agent.
The agent logs in to a Cisco switch over SSH and runs four fixed commands
(`terminal length 0` and three `show` commands). It builds a text transcript of their output, and `sanitize_output`
masks credentials, public IPv4 addresses and dotted MAC addresses in it. The
sanitized transcript then goes to a generative-model service for a diagnosis,
and the page shows both results.

The model has these modules:

- `Text` (`text.dfy`) holds ASCII character classes and the maximal runs that
  `\d+` and `\S+` take.
- `Patterns` (`patterns.dfy`) has one matcher per regular expression of the
  rule table. Each matcher answers what the regex engine answers at one
  position. For every quantifier in these patterns, a shorter run than the
  maximal one is followed by another character of its own class where the
  pattern wants a space, a dot or a word boundary. So no shorter run can
  complete a match that the maximal run does not, and each matcher takes
  maximal runs.
- `Sanitizer` (`sanitizer.dfy`) models `re.sub` as a leftmost,
  non-overlapping scan (`SubFrom`). It folds the rule table in order
  (`ApplyAll`, `Sanitize`), and the loop of `sanitize_output` is the method
  `SanitizeOutput`.
- `Shadowing` (`shadowing.dfy`) proves that the username rule (app.py:58)
  never changes anything. The first rule has already rewritten every
  `secret \d+ \S+` that the username rule would need, and neither that rule
  nor the next two can bring one back.
- `Addresses` (`addresses.dfy`) relates the public-address pattern to an
  octet-level definition of the prefixes it keeps (`IsPrivate`).
- `AddressScan` (`address_scan.dfy`) follows the address substitution around
  one dotted quad: a private address set apart from other digits and dots is
  copied, and one with more dotted digits attached is partly masked.
- `Redaction` (`redaction.dfy`) says what the credential, community and MAC
  rules do to the text they match. It also shows that text with no
  whitespace, digit or `.` (every placeholder, for example) passes through
  the whole table unchanged, and that no match starts inside a placeholder
  wherever it stands.
- `LineRedaction` (`line_redaction.dfy`) follows whole configuration lines:
  what the first rule does to a username line, and a community line and
  single addresses through the whole table.
- `Ssh` (`ssh.dfy`) is the netmiko session as a class. Its calls are logged
  in a `calls` field. What the device answers, and which calls raise, are
  fixed by a `Device` value.
- `Fetch` (`fetch.dfy`) models `connect_and_fetch` as the method
  `ConnectAndFetch`, proved against the functions `Expected` (the returned
  record) and `SessionCalls` (the calls the session receives).
  `FetchFacts` (`fetch_facts.dfy`) proves what those functions promise.
- `Agent` (`agent.dfy`) models `ask_gemini_agent` with the service as a
  parameter.
- `Workflow` (`workflow.dfy`) models the button branch of `main`.

Two behaviours of the code are modelled as written, not as a description
might suggest:

- **The API-key guard.** It compares the key with `YOUR_GEMINI_API_KEY_HERE`.
  When no secret is configured, the key is `YOUR_LOCAL_KEY_OR_EMPTY`, so the
  guard never fires in that setting (`Agent.GuardMissesFallback`).
- **Idempotence.** Sanitizing twice is not the same as sanitizing once.
  `aaaa.bbbb.cccc1.2.3.4` becomes `<MASKED_MAC>1.2.3.4` on the first pass.
  The address then sits at a word boundary, and a second pass masks it. What
  holds, and is proved, is the restricted form: the placeholders are inert
  (`Redaction.PlaceholderUntouched`, `Redaction.InertTextUntouched`), no
  match starts inside a placeholder wherever it stands
  (`Redaction.NoMatchStartsInPlaceholder`), and the
  first rule finds no match in its own output, inside an inserted replacement
  or elsewhere (`Shadowing.NoPasswordAfter`).

## Model

| member | source | states |
|---|---|---|
| Patterns.MatchPasswordSecret | app.py:55 | a match starts with `password ` or `secret `, is replaced by that keyword and the password placeholder, and ends at whitespace or at the end of the text |
| Patterns.NumberThenToken | app.py:55 | `\d+ \S+` ends after at least one character, at whitespace or the end of the text |
| Patterns.MatchEncryptedPassword | app.py:56 | a match starts with `encrypted password `, takes a non-empty token after it up to whitespace, and keeps the keywords before the placeholder |
| Patterns.MatchCommunity | app.py:57 | a match starts with `snmp-server community `, takes a non-empty token up to whitespace, and keeps the keywords before the community placeholder |
| Patterns.MatchUsernameSecret | app.py:58 | a match is non-empty and starts with a full `username \S+ privilege \d+ secret ` head |
| Patterns.DottedRuns | app.py:62 | dot-separated runs of one to three digits end on a digit that is not followed by another digit |
| Patterns.MatchPublicIPv4 | app.py:62 | a match starts at a digit with a word boundary before it, is not at a private prefix, ends at a word boundary and is replaced by the address placeholder |
| Patterns.HexGroups | app.py:65 | `n` groups of four hex digits span exactly `5n - 1` characters |
| Patterns.MatchDottedMac | app.py:65 | a MAC match spans exactly 14 characters with dots at positions 4 and 9, and becomes the MAC placeholder |
| Patterns.MatchAt | app.py:55-65 | a match found at position `i` ends after `i`, within the text |
| Sanitizer.SanitizeOutput | app.py:49-72 | the loop over the rule table returns the six substitutions applied in table order, each to the previous result |
| Sanitizer.SanitizeIsTheTableInOrder | app.py:53-70 | the fold over the table is the six rules composed in the order they are listed |
| Sanitizer.SubFromUnmatched | app.py:70 | a substitution with no match from `i` on copies the text from `i` unchanged |
| Sanitizer.SubFromFirstMatch | app.py:70 | the substitution copies the text before the first match, emits its replacement and resumes after it |
| Sanitizer.ApplyAllUnmatched | app.py:68-70 | text that no rule of a list matches anywhere is unchanged by the whole list |
| Sanitizer.SanitizeUnmatched | app.py:49-72 | pass-through: text that matches no rule of the table is returned unchanged |
| Shadowing.NoPasswordAfter | app.py:55-57 | after the first rule, and after the second and third rules on text already free of them, the first rule finds no match anywhere |
| Shadowing.UsernameRuleIsDead | app.py:55-58 | the username rule leaves the output of the first three rules unchanged, for every input |
| Shadowing.SanitizeWithoutUsernameRule | app.py:53-70 | `sanitize_output` equals the table with the username rule removed |
| Shadowing.UsernameHoldsPassword | app.py:58 | every text the username rule matches contains a match of the first rule further on |
| Addresses.SecondOctetRange | app.py:62 | the lookahead's second-octet alternatives accept a two-digit second octet exactly when its value is 16 to 31 |
| Addresses.QuadRuns | app.py:62 | the four octets of an address ended by a non-digit are read as the pattern's four digit runs, ending at the last digit |
| Addresses.LookaheadIsPrivate | app.py:61-62 | the negative lookahead fires on an address exactly when its leading octets are `10`, `172` with 16 to 31, or `192.168` |
| Addresses.QuadMatchAt | app.py:62 | both directions: an address between word boundaries is matched at its first digit, up to its last, exactly when it is not private, and is then replaced by the address placeholder |
| Addresses.PrivateEdges | app.py:61-62 | the edges of the kept ranges: `10`, `172.16`, `172.31` and `192.168` are private; `110`, `172.15`, `172.32`, `172.016`, `192.169` and `203` are not |
| AddressScan.NoMatchInside | app.py:61-62 | no match of the address pattern starts anywhere inside a private address that no digit or `.` follows |
| AddressScan.StopsBeforeAddress | app.py:62 | no match that starts before a position preceded by neither a digit nor a `.` runs past that position |
| AddressScan.PrivateAddressCopied | app.py:62 | once the scan reaches such a private address it copies it whole and resumes after it |
| AddressScan.PublicAddressReplaced | app.py:62 | once the scan reaches a public address between word boundaries, it emits the address placeholder and resumes after the address |
| AddressScan.PublicAddressMasked | app.py:60-62 | a public address between word boundaries, after neither a digit nor a `.`, is replaced by the address placeholder in the substituted text |
| AddressScan.PrivateAddressKept | app.py:62 | a private address whose neighbours are neither digits nor dots comes through the substitution byte for byte |
| AddressScan.PartlyMasked | app.py:61-62 | as written, `10.1.1.1.5` becomes `10.<MASKED_PUBLIC_IP>`: the pattern starts inside the private address |
| AddressScan.Swallowed | app.py:61-62 | as written, `1.10.1.1.1` becomes `<MASKED_PUBLIC_IP>.1`: a private address after one more run is masked with it |
| AddressScan.WithPrefixLength | app.py:62 | `203.0.113.5/32` becomes `<MASKED_PUBLIC_IP>/32`, keeping the prefix length |
| AddressScan.PrivateAlone | app.py:61-62 | `10.1.1.1` comes through unchanged |
| Redaction.PasswordMatch | app.py:55 | `password` followed by a numeric tag and a token is matched up to the token's end, and keyword plus one placeholder replace tag and token together |
| Redaction.SecretMatch | app.py:55 | the same for `secret`: the tag is dropped with the token |
| Redaction.PasswordNeedsTag | app.py:55 | `password ` not followed by a digit is not matched: the numeric tag is required |
| Redaction.EncryptedLine | app.py:56 | `encrypted password` and a token become the keywords and the password placeholder, and the scan resumes after the token |
| Redaction.CommunityLine | app.py:57 | `snmp-server community` and a token become the keywords and the community placeholder, and the scan resumes after the token |
| Redaction.CommunityTailCopied | app.py:57 | fewer than 23 remaining characters are copied through by the community rule |
| Redaction.CommunityExample | app.py:57 | the community rule turns `snmp-server community MySecret123 RO` into `snmp-server community <HIDDEN_COMMUNITY> RO` |
| Redaction.MacLine | app.py:65 | three dot-separated groups of four hex digits become the MAC placeholder whatever follows them, and the scan resumes after them |
| Redaction.NoDotUntouched | app.py:65 | text without a `.`, such as a colon-separated MAC address, is unchanged by the MAC rule |
| Redaction.MatchNeedsMark | app.py:55-65 | every rule's match holds a whitespace, a digit or a `.` at or after its start |
| Redaction.InertUnmatched | app.py:55-65 | no rule matches anywhere in text without whitespace, digits or dots |
| Redaction.InertTextUntouched | app.py:49-72 | such text comes through `sanitize_output` unchanged |
| Redaction.PlaceholderInertText | app.py:55-65 | each of the five placeholders has no whitespace, digit or dot |
| Redaction.PlaceholderUntouched | app.py:49-72 | each placeholder on its own comes through `sanitize_output` unchanged |
| Redaction.PlaceholderUnreadable | app.py:55-65 | every placeholder has no digit, lower-case letter or `.`, and does not end on a hex digit |
| Redaction.KeywordNeedsLetter | app.py:55-58 | the four credential rules match only where a lower-case letter stands |
| Redaction.MacNeedsDot | app.py:65 | no MAC match starts in a stretch without a `.` that ends on a character that is not a hex digit |
| Redaction.NoMatchStartsInPlaceholder | app.py:55-65 | wherever a placeholder stands in a text, no rule of the table finds a match that starts inside it |
| LineRedaction.PasswordNeeds | app.py:55 | a match of the first rule holds a space followed by a digit after its keyword |
| LineRedaction.UsernameHeadUnmatched | app.py:55 | in `username U privilege N secret M H`, no match of the first rule starts before `secret` |
| LineRedaction.UsernameHeadCopied | app.py:55 | the first rule copies `username U privilege N ` unchanged |
| LineRedaction.SecretReplacedAt | app.py:55 | at `secret`, a numeric tag, one space and a token, the scan emits `secret <HIDDEN_PASSWORD>` and resumes after the token |
| LineRedaction.UsernameTail | app.py:55 | in a username line, `secret`, its numeric tag and its hash stand where the first rule reads them |
| LineRedaction.SecretAfter | app.py:55 | a text with no match of the first rule before `secret M H` comes out as that text, `secret <HIDDEN_PASSWORD>`, then the rest of the scan after `H` |
| LineRedaction.SecretLast | app.py:55 | the same when the token ends the text: the result is the text before `secret` and `secret <HIDDEN_PASSWORD>` |
| LineRedaction.UsernameLineRedacted | app.py:55-58 | `username U privilege N secret M H` becomes `username U privilege N secret <HIDDEN_PASSWORD>` under the first rule |
| LineRedaction.PasswordIdle | app.py:55 | where no space is followed by a digit, the first rule finds nothing |
| LineRedaction.EncryptedIdle | app.py:56 | where no space is followed by a `p`, the encrypted-password rule finds nothing |
| LineRedaction.UsernameIdle | app.py:58 | where no space is followed by a `p`, the username rule finds nothing |
| LineRedaction.CommunityOnly | app.py:49-72 | on a line where only the community rule can fire, before and after it, `sanitize_output` does what that rule does |
| LineRedaction.QuietJoin | app.py:55-58 | two texts without a space before a digit or `p` join into one when the seam does not add one |
| LineRedaction.CommunitySanitized | app.py:49-72 | `sanitize_output` turns `snmp-server community MySecret123 RO` into `snmp-server community <HIDDEN_COMMUNITY> RO` |
| LineRedaction.KeywordRuleIdle | app.py:55-58 | each credential rule leaves text without lower-case letters unchanged |
| LineRedaction.AddressRulesOnly | app.py:49-72 | on text without lower-case letters, `sanitize_output` is the address rule followed by the MAC rule |
| LineRedaction.ShortMacFree | app.py:65 | text shorter than fourteen characters is unchanged by the MAC rule |
| LineRedaction.PrefixLengthSanitized | app.py:49-72 | `sanitize_output` turns `203.0.113.5/32` into `<MASKED_PUBLIC_IP>/32` |
| LineRedaction.PrivateAddressSanitized | app.py:49-72 | `sanitize_output` leaves `10.1.1.1` unchanged |
| Ssh.Session.constructor | app.py:88 | a new session is not connected, has received no call, and starts in the device's privilege mode |
| Ssh.Session.Open | app.py:88 | opening logs the call and connects, or raises the device's fault for that call and stays closed |
| Ssh.Session.CheckEnableMode | app.py:90 | reports the current privilege mode or raises, logging the call |
| Ssh.Session.Enable | app.py:91 | enters privileged mode or raises and leaves the mode unchanged, logging the call |
| Ssh.Session.FindPrompt | app.py:93 | returns the device prompt or raises, logging the call |
| Ssh.Session.SendCommand | app.py:97 | returns the device's output for the command or raises, logging the call |
| Ssh.Session.Disconnect | app.py:88 | leaving the `with` block closes the session and logs the close |
| Fetch.FirstFault | app.py:87-112 | the first raising call among the first `n`: no call before it raises, and none at all when there is none |
| Fetch.Prepare | app.py:89-94 | the mode check, `enable` when the device is not privileged, then the prompt, as planned, returning the prompt; an exception stops it with the raising call last |
| Fetch.SendOne | app.py:97 | one `send_command` for the next command: it returns the device's output for it and the session stays on the plan, or it raises the fault planned for that call |
| Fetch.RunCommands | app.py:96-98 | the loop sends the four commands in order and returns their entries, in order; an exception stops it with the raising call last |
| Fetch.Abort | app.py:109-112 | an exception after login closes the session and returns the error text of that exception |
| Fetch.ConnectAndFetch | app.py:74-112 | the result is the transcript and its sanitized copy when no call raises, otherwise the error text of the first raising call, and the session receives exactly the planned calls up to that one, then the close |
| Fetch.ErrorText | app.py:109-112 | timeouts and rejected logins, and only those, give `Network Error: `, everything else `System Error: `; the text ends with the exception's message and is exactly as long as prefix and message, so nothing stands between them |
| FetchFacts.FetchSucceedsIffNoFault | app.py:87-107 | the fetch succeeds exactly when no planned call raises, and then the record carries the transcript and `sanitize_output` of it |
| FetchFacts.PlanNeverCloses | app.py:88-98 | the session is closed only when the `with` block is left |
| FetchFacts.SessionReleased | app.py:88 | the session is closed exactly once, as its last call, whenever it was opened; a refused login sends nothing else |
| FetchFacts.EnableOnlyWhenNeeded | app.py:90-91 | `enable` is sent exactly when the device is not privileged and the login and mode check did not raise |
| FetchFacts.CommandsInOrder | app.py:78-98 | the commands sent are a prefix of the list in its order, and the whole list when the fetch succeeds |
| FetchFacts.SentAppend | app.py:96-97 | the commands sent by two call lists in sequence are those of the first, then those of the second |
| FetchFacts.BlockLayout | app.py:98 | an entry is a newline, thirty `=`, a newline, `[Command] ` and the command, a newline, the output and a newline |
| FetchFacts.BlocksAround | app.py:96-98 | the entries of a command list split around any command into those before it, its own, and those after it |
| FetchFacts.TranscriptOrder | app.py:94-98 | the transcript is the `Connected to:` header, then one entry per command, each command's entry after those of the commands before it |
| Agent.ErrorIsNotWarning | app.py:119-151 | the agent error text can never equal the key warning |
| Agent.ConfiguredKey | app.py:15-19 | the key is the configured secret when there is one; it is the placeholder exactly when a configured secret is the placeholder, never through the fallback |
| Agent.Consult | app.py:146-151 | the reply is the service's answer, or `🤖 AI Agent Error: ` followed by the exception's message, which is never the key warning; a failure is never raised |
| Agent.AskAgent | app.py:114-151 | with a key other than the placeholder the service is consulted; the reply is the key warning exactly when the key is the placeholder or the service itself answers with that text |
| Agent.GuardMissesFallback | app.py:15-19 | without a configured secret the fallback key passes the guard, so the service is consulted, and a rejected key shows as an agent error, not the key warning |
| Workflow.Dashboard.RunDiagnostics | app.py:195-213 | a failed fetch shows its error and stops before the agent is asked, keeping the stored results; a successful one shows no error box and stores the fetch record and the agent's reply to the sanitized transcript |

## Left out

- The Streamlit page is not modelled: layout, sidebar, tabs, status widgets, and displaying the stored results (app.py:157-194 and 215-237). `Workflow.Dashboard` keeps only the status, the error box and the two session-state entries.
- The netmiko transport is not modelled. The device is a value giving its privilege mode, prompt, answer per command and which calls raise. The connection settings (app.py:21-32) are not part of this model.
- `time.sleep(0.5)` between commands has no logical effect and is left out.
- `configure_genai` and the Gemini client calls are foreign network calls (app.py:41-47 and 147-148). The service is a function from the sanitized log to an answer or an exception.
- The prompt template around the log (app.py:121-144) belongs to that service function. The model does not state that the log is embedded verbatim.
- Reading `st.secrets` is a map from secret names to values (`Agent.ConfiguredKey`). The model name constant is not modelled.
- Python's `str` patterns use Unicode `\d`, `\s` and `\w`. The model uses their ASCII members (`\s` includes the separators 0x1C-0x1F, as Python's does), so text with non-ASCII digits, spaces or letters is outside what it describes.
- Octets are runs of one to three digits and are not checked against 255, as in the pattern itself.
- Ssh.Session.Disconnect: closing never raises. An exception raised while leaving the `with` block is not modelled.
- Addresses.QuadMatchAt: states the match at the address's first digit. The substitution is stated by `AddressScan.PublicAddressMasked` and `AddressScan.PrivateAddressKept`, which say what becomes of the address and leave the output before it as whatever the scan makes of that text. The private case holds only where no digit or `.` is next to the address. With more dotted digits attached, the pattern as written masks part of a private address (`AddressScan.PartlyMasked`, `AddressScan.Swallowed`); the model keeps that behaviour.
- Redaction.PasswordMatch: stated for the match at the start of the line, not for the whole substitution. `LineRedaction.SecretReplacedAt` gives the substitution for `secret`.
- Redaction.SecretMatch: stated at the level of the match, as for `PasswordMatch`.
- Redaction.EncryptedLine: the text after the token is left to the rest of the scan (`SubFrom` from the token's end) rather than stated as unchanged.
- Redaction.CommunityLine: the text after the token is left to the rest of the scan, as for `EncryptedLine`.
- Redaction.MacLine: the text after the third group is left to the rest of the scan.
- `sanitize_output` is not idempotent in general (see above), so only the inert-text form is proved.
- LineRedaction.UsernameLineRedacted: stated for the first rule and for a line that ends with its hash. The username rule then changes nothing (`Shadowing.UsernameRuleIsDead`); what the address and MAC rules do to the user name and privilege level is not followed. With text after the hash, `LineRedaction.SecretAfter` states the line up to the rest of the scan.
- Redaction.CommunityExample: stated for the community rule; `LineRedaction.CommunitySanitized` states the same line through the whole table.
