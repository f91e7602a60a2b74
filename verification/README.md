# net-receiver: a Dafny model of the SMTP receiving side

This project models the core of `net-receiver`, a Ruby library that accepts mail. It
covers the `Net::ReceiverCore` command loop, the address investigation on MAIL FROM and
RCPT TO, the `String`/`NilClass` helpers the loop relies on, and the `ItemOfMail` record
with its session identifier and header parser.

The session is an immutable value. Each client input is an event: a line, a closed
connection, a reset connection, silence past the timeout, or an I/O error.
`Receiver.Step` takes one event and returns the next session and the reply lines
written. `Receiver.Run` folds `Step` over a sequence of events. `Receiver.Receive` is the
whole of `receive`: the greeting, the run, and the item of mail handed to `received`.

The handlers an application overrides (`connect`, `ehlo`, `quit`, `rset`, `mail_from`,
`rcpt_to`, `data`, `password`, …) are the function fields of `Receiver.Hooks`.
`Receiver.DefaultHooks` gives the library's own defaults. The libraries the code calls
are the fields of `Receiver.Env`: DNS record lists, `Base64.decode64`, `UnixCrypt.valid?`,
the DKIM verifier, and the outcome of the TLS handshake.

Modules:

- `Patterns`: one recognizer per kind of table pattern, a reference reading of each
  regular expression, the command table and its scan.
- `ReceiverOptions`: the option defaults the constructor fills in.
- `Addresses`: `psych_value`.
- `ExtendedClasses`: the `dig_*` wrappers, `blacklisted?`, `validate_plain`.
- `Headers`: `parse_headers`.
- `ItemOfMail` and `Base36`: the mail record and its identifier.
- `Receiver`: the loop and the handlers.
- `ReceiverProperties`: the lemmas about them.
- `Text` and `Wrappers`: the Ruby string operations used, and `Option`.

Behaviour of the code that the model keeps as written:

- The pattern class `[ /t]` is {space, `/`, `t`}. Under `/i` it also takes `T`. A tab is
  not in it.
- The local-part class contains the range `+-\/`. That range admits `+ , - . /`, and `=`
  is not in the class. The comment above it (line 182) lists `=` and not `,`. The model
  follows the class as written.
- `ok?` looks at element 0 of the reply. For a list that element is the whole first line,
  so a list reply passes unless its first line is exactly `"4"` or `"5"`.
  `ok?(nil)` is true, because `NilClass#[]` returns `nil`.
- The scan stops at the first entry above the current level. So the
  `503 Command out of sequence` branch can never be taken, and the model leaves it out.
  The second TIMEOUT entry (level 1) is shadowed by the first (level 0).
- After an accepted RSET the level is 0. From then on only QUIT, SLAM and TIMEOUT are
  recognised (`ReceiverProperties.LevelZeroOnlyEnds`).
- TIMEOUT is not exempt from the prohibited-sender branch. A timeout is meant to end the
  session, but a prohibited sender that goes silent is only told it is prohibited, and the
  session goes on. The model follows the code.
- `recv_text` never returns `nil`. A connection closed during DATA reads as a `QUIT`
  line, which is appended to the body. The body loop then keeps reading `QUIT`.
- `do_data` passes `p` to the `data` hook. That is `Kernel#p`, which returns `nil`. The
  default `data` reads the identifier from the receiver's own item of mail, and the
  model's hooks see that item.
- The DKIM loop logs through `@log`, which is never assigned. A DKIM result that completes
  with signatures therefore raises, and the session ends through the rescue of last resort.
- `accepted` is set only at the end of DATA. It is cleared only by SLAM, TIMEOUT, the
  `Quit` exception and the rescue of last resort, so a second transaction in the same
  session cannot undo the first one's acceptance.
- A refused MAIL FROM empties the recipients, and its sender is not accepted. The level
  stays where it was, so a later DATA can still be recognised. The verdict still needs an
  accepted sender.
- EHLO at level 3 or 4 sets the level back to 2.
- A stored password hash not of the form `{SCHEME}digest` gives `m == nil`. Then `m[2]` is
  `nil` through `NilClass#[]`, and `nil` is what the crypt library receives.

## Model

| member | source | states |
|---|---|---|
| Patterns.RecognizeMatchesPattern | lib/net/receiver.rb:28-45 | each recognizer accepts exactly the lines its anchored, case-insensitive pattern matches, and its capture starts at the largest offset a match allows (greedy quantifiers) |
| Patterns.RecognizeOther | lib/net/receiver.rb:28-45 | the same agreement for the QUIT-like, EHLO, HELO and AUTH patterns once the keyword is located |
| Patterns.RecognizeColon | lib/net/receiver.rb:42-43 | the same agreement for `MAIL FROM` and `RCPT TO`: `[ /t]*` before the colon, `[ \t]*` after it, and a non-empty argument |
| Patterns.LeadUnique | lib/net/receiver.rb:232 | the keyword of a pattern can start at only one offset of a line |
| Patterns.Scan | lib/net/receiver.rb:230-249 | the hit is the first table entry whose level is at most the session's and that matches; no hit means no entry legal at that level matches |
| Patterns.TableShape | lib/net/receiver.rb:28-45 | the table has 16 entries at levels 0,0,0, 1×9, 2,2, 3, 4, and every pattern is well formed |
| Patterns.QuitRecognized | lib/net/receiver.rb:29 | `QUIT` hits entry 0 at every level |
| Patterns.SlamRecognized | lib/net/receiver.rb:30 | `SLAM` hits entry 1 at every level |
| Patterns.TimeoutRecognized | lib/net/receiver.rb:31 | `TIMEOUT` hits entry 2 at every level |
| Patterns.BareMatchesItself | lib/net/receiver.rb:29-31 | a command without an argument matches its own keyword with an empty capture |
| ReceiverOptions.MergeKeys | lib/net/receiver.rb:72-74 | the constructor's walk adds exactly the keys of the option list |
| ReceiverOptions.MergeKeeps | lib/net/receiver.rb:73 | a key the caller gave keeps its value, even `nil` or `false` |
| ReceiverOptions.MergeFirst | lib/net/receiver.rb:72-74 | an absent key takes the default the list pairs it with first |
| ReceiverOptions.MergeDefaultsLookup | lib/net/receiver.rb:66-76 | after the constructor every known key is present, holding the caller's value or its default (`ehlo_validation_check` false, the four checks true, `max_failed_msgs_per_period` 3) |
| ReceiverOptions.MergeDefaultsIdempotent | lib/net/receiver.rb:72-74 | filling in the defaults twice is filling them in once |
| ReceiverOptions.Settings | lib/net/receiver.rb:66-76 | EHLO validation is on only when the caller gave a truthy value; each character and MX check is on unless the caller gave `nil` or `false` |
| ReceiverOptions.DefaultSettings | lib/net/receiver.rb:68-70 | with no options, EHLO validation is off and the four address checks are on |
| Addresses.PsychValue | lib/net/receiver.rb:152-207 | the value is recorded and never accepted here; a MAIL FROM ending in `<>` is a bounce with no checks; a value without a trailing `<local@dom.tld>` is refused with a 501 line; otherwise the name and the address come from the last `<` that allows a match, local part and domain are the first two `@` fields, and the character and MX facts are present exactly when their option is on |
| Addresses.MailboxParts | lib/net/receiver.rb:167-175 | the local part is the text of the address before its first `@`; the domain is the text after that `@` up to the next `@` or the end, that is the second field of `split("@")`; neither holds an `@` |
| Addresses.UrlSplit | lib/net/receiver.rb:173 | the first two fields of `url.split("@")` sit in the address as local part, `@`, and domain ending at the next `@` or the end |
| Addresses.ProperAddressSplits | lib/net/receiver.rb:173 | a matched address always splits on `@` into at least two fields, so neither the local part nor the domain is `nil` |
| Addresses.Investigate | lib/net/receiver.rb:189-200 | `ip` is the domain's first A record and `mxs` its MX list; `ips` exists exactly when `mxs` does, with one A lookup per MX name, in order |
| Addresses.WrongDotUsageMeansEmptyLabel | lib/net/receiver.rb:184-186 | a non-empty local part has `wrong_dot_usage` exactly when splitting it at its dots leaves an empty label |
| Addresses.LaterEmptyField | lib/net/receiver.rb:186 | a field after the first is empty exactly when a separator is followed by another separator or ends the text |
| ExtendedClasses.DigA | lib/net/extended_classes.rb:70-75 | `nil` for a `nil` receiver (the `NilClass` fallback of line 53) or no record, otherwise the first A record |
| ExtendedClasses.DigAaaa | lib/net/extended_classes.rb:79-84 | `nil` for a `nil` receiver (line 54) or no record, otherwise the first AAAA record lower-cased |
| ExtendedClasses.DigMx | lib/net/extended_classes.rb:88-93 | `nil` for a `nil` receiver (line 55) or an empty list, otherwise the whole MX list |
| ExtendedClasses.DigDk | lib/net/extended_classes.rb:97-102 | `nil` for a `nil` receiver (line 56) or no TXT record, otherwise the first string of the first TXT record |
| ExtendedClasses.DigPtr | lib/net/extended_classes.rb:105-111 | `nil` for a `nil` receiver (line 57), otherwise the reverse lookup of the lower-cased address |
| ExtendedClasses.Blacklisted | lib/net/extended_classes.rb:117-128 | listed exactly when the query name has an A record |
| ExtendedClasses.BlacklistQueryOfQuad | lib/net/extended_classes.rb:118 | for `a.b.c.d` the query name is `d.c.b.a.zone`, as in section 2.1 of RFC 5782 |
| ExtendedClasses.ReverseNameTwice | lib/net/extended_classes.rb:118 | reversing the labels twice gives back a name that neither starts nor ends with a dot |
| ExtendedClasses.HashDigest | lib/net/extended_classes.rb:179 | the digest exists exactly when the hash starts with `{` and holds a later `}`, and it is the text after the last `}` |
| ExtendedClasses.ValidatePlain | lib/net/extended_classes.rb:173-181 | a `nil` blob (the `NilClass` version of line 59), a missing user or password, or a lookup returning `nil` gives `("", false)`; otherwise the result is the decoded user with the crypt verdict on the password and the hash's digest, or the crypt library's exception |
| ExtendedClasses.PlainLogin | lib/net/extended_classes.rb:173-181 | a message `authzid NUL user NUL password` for a user stored as `{SCHEME}digest` yields that user and the crypt verdict on the password and the digest |
| ExtendedClasses.PlainRoundTrip | lib/net/extended_classes.rb:175 | `authzid NUL user NUL password` decodes to exactly the user and the password, as section 2 of RFC 4616 lays the message out |
| ExtendedClasses.PlainEdgeCases | lib/net/extended_classes.rb:175-176 | `\0bob\0` loses its empty password and fails closed; `\0\0pw` reaches the lookup with an empty user name |
| ExtendedClasses.LookupOnlyWithBothCredentials | lib/net/extended_classes.rb:175-177 | with a credential missing the lookup block is never consulted, and the result is `("", false)` |
| ExtendedClasses.SchemeIgnored | lib/net/extended_classes.rb:179-180 | the scheme of a `{SCHEME}digest` hash is ignored; only the digest reaches the crypt check |
| Base36.DecodeEncode | lib/net/item_of_mail.rb:28 | the base-36 text of a number reads back as that number |
| Base36.PaddedKeepsValue | lib/net/item_of_mail.rb:29-30 | padding with zeros and keeping the last `width` digits loses nothing when the number is below 36^width |
| Base36.EncodeLength | lib/net/item_of_mail.rb:29-30 | a number below 36^k has at most k base-36 digits |
| ItemOfMail.Draw | lib/net/item_of_mail.rb:29 | the truncated random draw is below 36^6 = 2176782336 |
| ItemOfMail.SessionId | lib/net/item_of_mail.rb:27-31 | the identifier is the seconds' digits plus 10 characters, all upper-case base-36 digits or `-` |
| ItemOfMail.SessionIdRoundTrip | lib/net/item_of_mail.rb:27-31 | the seconds, the random draw and the milliseconds can all be read back from the identifier, so the truncation to 6 and 2 digits drops no significant digit |
| ItemOfMail.NewMail | lib/net/item_of_mail.rb:20-34 | the connection facts are stored unchanged, the identifier decodes to the clock readings, and nothing else is recorded yet |
| ItemOfMail.ParseHeaders | lib/net/item_of_mail.rb:36-59 | the body's headers become the reference reading of its lines (the lines before the first empty one, continuation lines joined to the header before them, headers filed in order), and the parse reports success exactly when every unfolded header but the last has a colon |
| Headers.HeaderKey | lib/net/item_of_mail.rb:57 | as on lines 49 and 57, the key is the keyword lower-cased with every `-` turned into `_` |
| Headers.File | lib/net/item_of_mail.rb:48-49 | filing a header followed by another one succeeds exactly when it has a colon, and stores the stripped text after the first colon under its key |
| Headers.ParseHeadersUnfolds | lib/net/item_of_mail.rb:36-59 | the line-at-a-time parser equals the reference reading: take the lines before the first empty one, join continuation lines to the header before them, then file the headers in order |
| Headers.StopsAtEmptyLine | lib/net/item_of_mail.rb:45-46 | the lines from the first empty line on are never read |
| Headers.IgnoresBody | lib/net/item_of_mail.rb:45-46 | whatever follows the empty line does not change the headers |
| Headers.SectionBeforeEmptyLine | lib/net/item_of_mail.rb:45-46 | the header section of a text is determined by the lines up to its first empty line |
| Headers.Unfold | lib/net/item_of_mail.rb:43-44 | unfolding yields no more headers than lines, at least one for non-empty input, and none empty when no line is |
| Headers.FileAllSucceeds | lib/net/item_of_mail.rb:48-57 | filing succeeds exactly when every header but the last has a colon |
| Headers.FileAllKeys | lib/net/item_of_mail.rb:49-57 | a successful parse has exactly the keys of the headers filed |
| Headers.FileAllLast | lib/net/item_of_mail.rb:55-57 | the last header's value is in place after a successful parse, whatever earlier header had the same key |
| Headers.FileAllKeeps | lib/net/item_of_mail.rb:49 | filing headers under other keys leaves a key's value alone |
| Headers.FileAllLatest | lib/net/item_of_mail.rb:49 | after a successful filing each key holds the value of the last header filed under it, so a later header with the same key overwrites an earlier one |
| Headers.HeadersLatestValue | lib/net/item_of_mail.rb:36-59 | in a successful `parse_headers`, the key of an unfolded header that no later header shares holds that header's value |
| Headers.HeadersOutcome | lib/net/item_of_mail.rb:36-59 | `parse_headers` succeeds exactly when every unfolded header but the last has a colon; its keys are then those of all unfolded headers, and the last header holds its value (`""` when it has no colon) |
| ItemOfMail.ParseHeadersIdempotent | lib/net/item_of_mail.rb:37-39 | parsing the headers a second time changes nothing |
| Receiver.Close | lib/net/receiver.rb:260-268 | ending the session marks the mail not accepted, except when the client quit or the TLS handshake failed |
| Receiver.Step | lib/net/receiver.rb:89-96 | the warning flag after a step is set exactly when it was set before or a line written in the step begins with `5` |
| Receiver.Start | lib/net/receiver.rb:212-224 | the session starts open at level 1 with the warning flag clear, nothing accepted, encrypted or authenticated, the connect facts and the greeting from the `connect` hook recorded, and the sender prohibited exactly when the hook says so |
| ReceiverProperties.StepDispatches | lib/net/receiver.rb:227-254 | between commands a step dispatches the line read and notes a level-5 line among its replies |
| ReceiverProperties.EndOfInputQuits | lib/net/receiver.rb:125-128 | a closed connection reads as QUIT; the `quit` hook answers through `do_quit` (lines 316-319), and the session ends exactly when its answer passes `ok?`, with the mail untouched |
| ReceiverProperties.ResetSlams | lib/net/receiver.rb:321-326 | a reset connection reads as SLAM (lines 131-133); the session ends with no reply and the mail not accepted, even for a prohibited sender |
| ReceiverProperties.SilenceTimesOut | lib/net/receiver.rb:328-332 | silence reads as TIMEOUT (lines 142-144); the session ends with a 501 line naming the identifier, the mail not accepted, and the warning flag set |
| ReceiverProperties.SilenceWhileProhibited | lib/net/receiver.rb:236-239 | a prohibited sender's TIMEOUT is answered with the 450 line and changes nothing |
| ReceiverProperties.IoErrorAborts | lib/net/receiver.rb:139-141 | an I/O error while reading raises `Quit`, which (lines 260-261) ends the session without a reply and with the mail not accepted |
| ReceiverProperties.UnrecognizedChangesNothing | lib/net/receiver.rb:250-253 | a line no legal entry matches is answered with the 500 line quoting it, and only the warning flag changes |
| ReceiverProperties.LevelZeroOnlyEnds | lib/net/receiver.rb:368-371 | after an accepted RSET the level is 0, and at level 0 a step either ends the session or changes nothing but the warning flag |
| ReceiverProperties.ProhibitedOnlyQuits | lib/net/receiver.rb:234-239 | for a prohibited sender a step either ends the session or changes nothing but the warning flag |
| ReceiverProperties.DataNeedsLevelFour | lib/net/receiver.rb:44 | DATA is an entry of level 4 and the scan stops above the session's level (line 231), so below level 4 no step starts collecting a body |
| ReceiverProperties.StepPreservesInv | lib/net/receiver.rb:212-280 | every step keeps the level at most 4, collects only at level 4 after DATA, and keeps a recipient beside an accepted sender at level 4 |
| ReceiverProperties.RunPreservesInv | lib/net/receiver.rb:226-258 | the same invariant holds after any number of events |
| ReceiverProperties.StartInv | lib/net/receiver.rb:212-224 | the session `receive` starts from satisfies the invariant |
| ReceiverProperties.DataVerdict | lib/net/receiver.rb:415-465 | the `.` line ends the body; when the headers parse and DKIM does not fault, the mail is accepted exactly when it already was or the sender and every recipient were accepted and no level-5 line was written; the level drops to 1 and the `data` hook answers |
| ReceiverProperties.DataFaults | lib/net/receiver.rb:445-450 | a header section that raises (line 433), or a DKIM result with signatures, ends the session with nothing written and the mail not accepted |
| ReceiverProperties.CollectKeepsLine | lib/net/receiver.rb:424-431 | any other line during DATA, including the words for transport events, is appended verbatim and nothing is written |
| ReceiverProperties.CollectRun | lib/net/receiver.rb:424-431 | a stretch of lines without `.` is appended to the body in order, with nothing written |
| ReceiverProperties.AcceptanceNeedsVerdict | lib/net/receiver.rb:452-460 | a step that turns the mail accepted is the `.` line, after an accepted sender and all-accepted recipients, with no level-5 line written |
| ReceiverProperties.AcceptanceNeedsRecipient | lib/net/receiver.rb:452-460 | from a session that satisfies the invariant, the step that accepts the mail leaves at least one recipient, all of them accepted |
| ReceiverProperties.RunWarned | lib/net/receiver.rb:93 | after a run the warning flag is set exactly when it was set at the start or some line written begins with `5` |
| ReceiverProperties.WarnedBlocksAcceptance | lib/net/receiver.rb:456-460 | once a level-5 line is written, mail not yet accepted is never accepted in that session |
| ReceiverProperties.ProhibitedNeverAccepted | lib/net/receiver.rb:236-239 | a prohibited sender's mail is never accepted |
| ReceiverProperties.RunKeepsProhibited | lib/net/receiver.rb:239-240 | the flag is set before the loop (line 216) and no command changes whether the sender is prohibited |
| ReceiverProperties.ClosedIsFinal | lib/net/receiver.rb:227 | a closed session reads no more events |
| ReceiverProperties.RunStopsAtClose | lib/net/receiver.rb:258 | once a run has closed the session, more events change neither the session nor the transcript |
| ReceiverProperties.ClosingStepEnding | lib/net/receiver.rb:260-270 | a step that closes the session keeps the mail accepted only when the client quit or the TLS handshake failed |
| ReceiverProperties.RunEnding | lib/net/receiver.rb:260-279 | a run that ends with the mail accepted ended by QUIT or by a failed TLS handshake |
| ReceiverProperties.ReceiveFinishedIsFinal | lib/net/receiver.rb:272-279 | once `receive` has handed the mail to `received`, further input changes nothing |
| ReceiverProperties.ReceivedAcceptedMail | lib/net/receiver.rb:272-279 | a mail handed to `received` as accepted came from a session ended by QUIT or a failed TLS handshake, with a sender that was not prohibited |
| ReceiverProperties.MailFromStartsTransaction | lib/net/receiver.rb:387-399 | MAIL FROM records the sender and empties the recipients; the sender is accepted and the level becomes 3 exactly when the address is not refused and the hook passes `ok?`; a refusal sends its 501 line |
| ReceiverProperties.RcptToAppendsOne | lib/net/receiver.rb:401-413 | RCPT TO appends exactly one recipient and keeps the earlier ones; it is accepted and the level becomes 4 exactly when the address is not refused and the hook passes `ok?` |
| ReceiverProperties.PlainLoginSucceeds | lib/net/receiver.rb:338-345 | `AUTH PLAIN` with a well-formed message whose password the crypt check accepts against the user's stored digest records the user as authenticated and answers 235, changing nothing else |
| ReceiverProperties.AuthOutcome | lib/net/receiver.rb:334-352 | no mechanism word ends the session; a mechanism other than PLAIN, in any case, gets 504 and changes nothing; for PLAIN a passing check records the user and sends 235, a failing one sends 530, and a crypt error ends the session |
| ReceiverProperties.NoPasswordsNoLogin | lib/net/receiver.rb:338-341 | with a `password` hook that knows no user (like the default of lines 490-492), nobody is authenticated |
| ReceiverProperties.EhloOutcome | lib/net/receiver.rb:301-314 | EHLO records the DNS facts of its argument; with validation on, a name whose lookups disagree gets 550 and the level stays; otherwise the level becomes 2 exactly when the hook passes `ok?` |
| ReceiverProperties.DefaultRepliesOk | lib/net/receiver.rb:470-524 | every default reply passes `ok?`, including the multi-line EHLO reply; the defaults prohibit no one and know no password |
| ReceiverProperties.HandleNeverAccepts | lib/net/receiver.rb:301-413 | no command handler turns the mail accepted |
| ReceiverProperties.AuthFrame | lib/net/receiver.rb:334-352 | AUTH ends the session only through the rescue of last resort, which marks the mail not accepted |

## Left out

- Sockets, `Timeout`, the CRLF line ending, logging and the debug `puts`. Input is a
  sequence of events and output is the list of lines written. A write that fails with
  EPIPE or EIO is not modelled.
- The TLS handshake is one boolean of `Env`. A failed handshake ends the session with
  the mail's acceptance unchanged. The `~` log indicator is not modelled.
- DNS resolution, `Base64.decode64`, `UnixCrypt.valid?` and the DKIM verifier are
  functions supplied by `Env`. A crypt or DKIM error is an outcome of those functions.
- Wall-clock time and `rand` are parameters. They are the `Clock` of `ItemOfMail` and
  the banner time of `DefaultHooks`.
- The DKIM loop that records signatures in the mail is left out. It can only run after
  `@log.info` has raised, so no signature is ever recorded.
- Case mapping is ASCII. Ruby's Unicode-aware `downcase`, `upcase` and `/i` are not
  modelled.
- `Receiver.Inspect` escapes only `"` and `\`. Ruby's `String#inspect` escapes more
  characters.
- Hooks return replies and cannot change the item of mail. The one exception is
  `prohibits`, which stands for a `connect` override that sets `prohibited`.
- The `auth` default hook is never called by the loop, so it is not a field of `Hooks`.
- `max_failed_msgs_per_period` is filled in with its default but is read nowhere.
  `Receiver.Ctx` carries only the five checks that are read.
- `spf_check`, `mta_live?`, `utf8`, `deepclone` and `NilClass#mta_live?` are not part of
  this model. The loop never calls them.
- `example/test3.rb` is not part of this model. It only starts the process.
- EOF during DATA makes Ruby read `QUIT` again and again without end. The model appends
  one `QUIT` line per end-of-input event, so a finite run stays open.
- ExtendedClasses.HashDigest: matches `/^{(.*)}(.*)$/` against the whole stored hash.
  Ruby's `^`, `$` and `.` work line by line, so a hash containing a newline can get a
  different digest. Stored hashes are taken to be single lines.
- ItemOfMail.Draw: `rand` and the product `2176782336 * rand` are exact reals here.
  Ruby computes the product in double precision, which can round up to the next integer
  before `to_i`, so the draw may differ by one from Ruby's. The bound below 36^6 holds
  either way.
- ReceiverProperties.EhloOutcome: says the level becomes 2 when the `ehlo` hook passes
  `ok?`. It does not restate which lines the default hook writes.
