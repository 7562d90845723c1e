# JustMail: a verified model of its protocols, codecs and reconcilers

JustMail is a self-hosted mail platform. This project models the parts of it that carry an algorithm or a
protocol, and proves what they are for:

- **Printers and readers.** The Sieve compiler is proved against a lexer, parser and evaluator for the language
  (`SieveLanguage`); the vCard and iCalendar codecs are proved to round-trip exactly the canonical cards and events;
  the mbox export, the deSEC TXT encoding and the zone-file export are proved against readers; the MIME structure
  scan is proved exact against a recursive definition on the MIME tree.
- **Reconcilers and state machines over tables.** DNS synchronisation, DKIM key rotation with its on-disk selector
  map, SCIM group operations with derived organisation roles, and nested LDAP groups.
- **Concurrency and caches.** Worker replicas excluding each other by advisory locks and the webhook retry machine
  under those locks, the credential store in its Redis and settings-table forms, the rate limiter.
- **Bytes.** Resumable chunked uploads with content-addressed attachments, and resumable storage migration.

`dafny verify dfyconfig.toml` checks everything. Each module names the source file it models. Code that works step by
step is a method or a class, proved against a function of its inputs or of the old state; the theorems are then
lemmas about that function, or about runs of a state machine.

Conventions used throughout: tables are maps; a database transaction, a single SQL statement and a single Redis command
are atomic steps; a clock reading is a parameter that does not decrease; every outcome of the network, the disk, a
foreign library or a failing statement is a parameter. SHA-256 is an injective function. A `char` is a Unicode
character, and in the mbox and MIME modules one latin1 byte.

## What turned out false

These promises of the code or its comments hold only under a condition. Each has a counterexample and, where the
name says so, an exact condition:

- A line break in a rule's name lets the name end its comment and become commands (`NameRunsAsActions`,
  `LineBreakInNameChangesMeaning`; which names stay comments: `CommentVanishesIff`).
- A Redis `get` can renew a credential after the session index has expired, so logout misses it
  (`LogoutMissesCredential`; exactly when: `GetKeepsIff`, `CoveredIffGuarded`).
- The settings-table fallback gives up a credential up to a second before Redis does (`SameAnswersIff`), and a slow
  get renews it there alone (`SlowGetDiverges`).
- A storage read error during an append silently drops the bytes staged so far, and a lost row update makes the client
  send a chunk twice (`LostUpdateDuplicates`; exactly when: `AppendKeepsIff`). A finalise that fails after removing the
  staged object leaves an upload that counts as complete without its bytes (`FailedFinaliseKeepsIff`).
- A webhook answered 2xx whose update then fails is sent again (`RequestedAgain`; exactly when: `NextRequest`).
- A lock session lost under a running body lets two ticks overlap (`OverlapIsReached`; exactly when:
  `LostSessionBreaksExclusion`, `ReachableSafeIff`).
- An mbox reader that ends lines only at LF does not recover messages with a CR right before quoted text
  (`CrBeforeFromIsKept`; exactly when: `LfReaderRecoversIff`).
- A TXT value whose first 255 units are white space does not survive deSEC's encoding (`OneSpaceIsLost`; exactly when:
  `TxtRoundTripIff`).
- A TXT value with a backslash does not survive the zone-file export, which escapes quotes only (`BackslashIsLost`;
  exactly when: `TxtReadsIff`).

## Model

| member | source | states |
|---|---|---|
| SieveCorrect.ScriptMeansRules | apps/api/src/webmail/sieve-compile.ts:79-120 | for every rule list whose names stay in their comments and every message: lexing, parsing and running the compiled text gives exactly the actions of evaluating the rules directly, each condition on the header it names, including all/any, unconditional rules and stop |
| SieveCorrect.CompileScript | apps/api/src/webmail/sieve-compile.ts:108-120 | the loop's text has that meaning on all messages, for all such names |
| SieveLexing.CommentVanishesIff | apps/api/src/webmail/sieve-compile.ts:79-81 | a hash, a text and a line break vanish in front of anything exactly when every later line of the text is blank or a comment |
| SieveCorrect.NameRunsAsActions | apps/api/src/webmail/sieve-compile.ts:79-90 | otherwise the name runs: in any rule of any list, lines of the name that spell actions are executed in front of the rule, whether or not its condition holds, on every message |
| SieveCorrect.LineBreakInNameChangesMeaning | apps/api/src/webmail/sieve-compile.ts:79-84 | in any rule of any list, a second line that says stop ends the filters there, on every message; that is what the rules mean if and only if they had stopped before, or stop next with nothing done |
| SieveCompile.RequiresExact | apps/api/src/webmail/sieve-compile.ts:42-52 | the require list holds exactly the extensions some action uses, each once |
| SieveCompile.CollectRequires | apps/api/src/webmail/sieve-compile.ts:95-104 | the set filled in nested loops and filtered in a fixed order is that list |
| SieveLexing.QuotedReads | apps/api/src/webmail/sieve-compile.ts:26-28 | every string, escaped and quoted, is read back as itself by the quoted-string rule |
| SieveLexing.ScriptLexes | apps/api/src/webmail/sieve-compile.ts:79-120 | the whole script lexes to the tokens of its require list and rules whenever names stay in their comments |
| SieveCorrect.ScriptParses | apps/api/src/webmail/sieve-compile.ts:54-120 | those tokens parse, by the generic grammar, to the rules' commands and nothing else |
| SieveCorrect.ConditionMeans | apps/api/src/webmail/sieve-compile.ts:35-37 | a compiled header test holds of a message exactly when some value of the header the rule names (from, to, cc or subject; for "any", one of the four) satisfies its test |
| LineCodec.UnfoldLines | apps/api/src/contacts/vcard.ts:35-47 | the loop joins each continuation to the last logical line |
| LineCodec.AnyLineEnd | apps/api/src/contacts/vcard.ts:36 | a line ends at CRLF, at LF, and at a CR that no LF follows |
| LineCodec.MergeNext | apps/api/src/contacts/vcard.ts:38-45 | a line that begins with a space or a tab, and only its first character off, continues the line before it |
| LineCodec.FoldLine | apps/api/src/contacts/vcard.ts:244-255 | the loop cuts a line into a first piece and continuations |
| LineCodec.FoldingRoundTrip | apps/api/src/contacts/vcard.ts:35-255 | unfolding the folded output gives back exactly the logical lines; every physical line ends in CRLF and none exceeds 75 units |
| LineCodec.EscapesAgree | apps/api/src/contacts/vcard.ts:64-71 | four replacement passes, in the vCard or the iCalendar order, equal one character map |
| LineCodec.UnescapeInverts | apps/api/src/contacts/vcard.ts:49-62 | unescaping inverts the escape on every string |
| LineCodec.UnescapeLoop | apps/api/src/contacts/vcard.ts:49-62 | the index loop computes the recursive reader |
| LineCodec.SplitUnescapedLoop | apps/api/src/contacts/vcard.ts:73-89 | the index loop splits at exactly the unescaped delimiters |
| LineCodec.EscapedIsOnePart | apps/api/src/contacts/vcard.ts:73-89 | an escaped value is never cut, whatever follows its delimiter |
| VCard.ParsePropertyLoop | apps/api/src/contacts/vcard.ts:91-130 | the quote-aware scan finds the first colon outside quotes and the parameters before it |
| VCardRoundTrip.ColonAtIff | apps/api/src/contacts/vcard.ts:93-105 | the value begins after the first colon with an even number of double quotes before it |
| VCardRoundTrip.ParamsAdd | apps/api/src/contacts/vcard.ts:112-128 | a bare parameter is a type; a named one adds each of its comma-separated values without quotes |
| VCardRoundTrip.FirstTypeMeans | apps/api/src/contacts/vcard.ts:132-137 | the label of an entry is its first type other than "pref", or else its first, in lower case |
| VCardRoundTrip.NamedByParts | apps/api/src/contacts/vcard.ts:167-173 | a card without a formatted name is called by its given and family names |
| VCard.ParseVCard | apps/api/src/contacts/vcard.ts:139-209 | the line loop is the reading whose round trip is proved |
| VCard.SerializeVCard | apps/api/src/contacts/vcard.ts:212-235 | the pushed lines are the card's lines, folded |
| VCardRoundTrip.WrittenCardReads | apps/api/src/contacts/vcard.ts:139-235 | what any card without stray carriage returns reads back as, and that every written line fits |
| VCardRoundTrip.WrittenEnvelope | apps/api/src/contacts/vcard.ts:212-235 | every written card stands between the lines that open and close a version 3.0 card, each ended by CRLF |
| VCardRoundTrip.RoundTripIffCanonical | apps/api/src/contacts/vcard.ts:139-241 | for every card: it reads back as itself if and only if it is canonical (labels without capital letters; only ASCII letters are taken to have a case) |
| ICal.ParsePropertyLoop | apps/api/src/calendar/ical.ts:62-82 | the parameter loop builds the property's name, parameters and value |
| ICal.ParseICal | apps/api/src/calendar/ical.ts:129-199 | the line loop is the reading whose round trip is proved, with its range error and its null |
| ICalRoundTrip.DateTimeReads | apps/api/src/calendar/ical.ts:103-126 | a date-time, with or without Z and whatever zone a parameter names, is read as that time in UTC |
| ICalRoundTrip.DayReads | apps/api/src/calendar/ical.ts:86-92 | eight digits, or a value that begins with them under VALUE=DATE, are read as midnight of that day |
| ICalRoundTrip.OtherDateReads | apps/api/src/calendar/ical.ts:94-102 | any other value is what the date constructor makes of it, or the epoch |
| ICalRoundTrip.OutsideIgnored | apps/api/src/calendar/ical.ts:141-151 | lines before the event, of whatever component, change nothing |
| ICalRoundTrip.EndsWhereItStarts | apps/api/src/calendar/ical.ts:187-189 | an event without an end lasts until its start |
| ICal.SerializeICal | apps/api/src/calendar/ical.ts:201-224 | the pushed lines are the event's lines, folded |
| ICalRoundTrip.ReadsIsoIsPossible | apps/api/src/calendar/ical.ts:84-127 | a date reader as the round trip assumes exists, so the assumption is not empty |
| ICalRoundTrip.WrittenEventReads | apps/api/src/calendar/ical.ts:129-224 | what any event at instants of the years 1000 to 9999 reads back as, and that every written line fits |
| ICalRoundTrip.WrittenEnvelope | apps/api/src/calendar/ical.ts:201-224 | every written event stands between the lines that open and close a version 2.0 calendar, with the time of writing, each ended by CRLF |
| ICalRoundTrip.RoundTripIffCanonical | apps/api/src/calendar/ical.ts:84-224 | such an event reads back as itself if and only if it is canonical: whole seconds, midnight for all-day, trimmed uid, no CR |
| MimeScan.CollectBoundaries | packages/mail-parser/src/index.ts:77-84 | the scanning loop collects exactly the declared boundaries |
| MimeScan.AssertStructureWithinLimits | packages/mail-parser/src/index.ts:72-112 | the stack loop gives the verdict of the recursive scan, with both limit errors |
| MimeTree.AcceptsIffWithinLimits | packages/mail-parser/src/index.ts:72-112 | on the rendering of every well-formed tree: accepted if and only if depth is at most 8 and parts at most 200, ending with an empty stack and the exact count |
| MimeTree.ScanStaysWithin | packages/mail-parser/src/index.ts:86-111 | on any text, every prefix of an accepted scan is within the limits |
| MimeTree.DeclarationMatches | packages/mail-parser/src/index.ts:79-83 | a declaration in any case and spacing, quoted or not, makes its boundary known |
| MimeTree.DelimiterLines | packages/mail-parser/src/index.ts:88-95 | two dashes and a boundary open a part, with two more dashes they close it, spaces and tabs at the end allowed |
| DnsReconcile.ChosenIsClaimed | apps/api/src/dkim/dns-reconcile.ts:99-141 | only records of the row's own type, name and identity are ever overwritten or deleted |
| DnsReconcile.TxtKindIff | apps/api/src/dkim/dns-reconcile.ts:32-38 | the purpose of a TXT record: exactly the six version tokens that begin it in any case and end at a word boundary, and the verification prefix |
| DnsReconcile.MxHostReads | apps/api/src/dkim/dns-reconcile.ts:87-92 | the host of an MX content is its second word, or its only one, without a final dot and in lower case |
| DnsReconcile.StripQuoted | apps/api/src/dkim/dns-reconcile.ts:24-26 | contents compare equal whatever outer quotes and white space they carry |
| DnsSync.DnsService.SyncRecord | apps/api/src/dkim/dns.service.ts:83-121 | one row's list, choice, upsert, deletions and save, under a failure at any call; what a turn without failure comes to is TurnMeans |
| DnsSync.DnsService.SyncToProvider | apps/api/src/dkim/dns.service.ts:81-124 | the loop is the fold of those steps; every row gets one reported action; what a run without failure comes to is SyncConverges, OneRecordConverges and AddressConverges |
| DnsConverge.TurnMeans | apps/api/src/dkim/dns.service.ts:83-119 | a fault-free turn creates a record, under a new id, if and only if the zone holds none the row claims; otherwise it takes no new id and overwrites in place the first exact record, or else the first claimed one, and removes the other TXT of its purpose; the reported action and the saved id say which |
| DnsConverge.OneRecordConverges | apps/api/src/dkim/dns-reconcile.ts:99-123 | where a row claims at most one record, and no other row claims it (an MX host, say), a fault-free sync leaves exactly one, the expected one, under the id it had |
| DnsConverge.AddressConverges | apps/api/src/dkim/dns-reconcile.ts:120-122 | for a CNAME or an address: a name with at most one record has exactly one afterwards, the expected one, under the id it had |
| DnsConverge.SyncFrame | apps/api/src/dkim/dns.service.ts:81-124 | whatever fails, records no expected row claims stay as they are, in order |
| DnsConverge.OtherTxtUntouched | apps/api/src/dkim/dns-reconcile.ts:28-40 | TXT of unrecognised kinds, and of kinds not expected at their name, are never changed |
| DnsConverge.SettlesItsRow | apps/api/src/dkim/dns.service.ts:83-104 | from any zone, one fault-free turn leaves the row's exact record there and nothing else of the same purpose |
| DnsConverge.StaysSettled | apps/api/src/dkim/dns.service.ts:81-124 | another row's turn, however it fails, keeps it so |
| DnsConverge.SyncConverges | apps/api/src/dkim/dns.service.ts:81-124 | a fault-free sync leaves exactly one TXT per expected recognised kind and name, with the expected content |
| DnsConverge.SyncIsIdempotent | apps/api/src/dkim/dns.service.ts:81-124 | a second sync changes nothing and reports every row kept |
| DnsConverge.FailedRunsRecover | apps/api/src/dkim/dns.service.ts:81-124 | after any partly failed run, one fault-free run reaches the same contents as if nothing had failed |
| ZoneFile.TxtReadsIff | apps/api/src/dkim/dns.service.ts:306-310 | a master-file reader gets a TXT value back if and only if it holds no backslash |
| ZoneFile.BackslashIsLost | apps/api/src/dkim/dns.service.ts:306-310 | the shortest value that does not come back |
| ZoneFile.ToZoneFile | apps/api/src/dkim/dns.service.ts:285-300 | the loop writes the banner and one line per record |
| ZoneFile.ZoneReads | apps/api/src/dkim/dns.service.ts:285-310 | reading the file and decoding its strings gives exactly the records in order: names, types and lifetimes, every TXT content without a backslash, hosts and aliases fully qualified |
| Desec.ChunksCut | apps/api/src/dkim/desec.ts:44 | the quoted strings are at most 255 units, all but the last full, and join to the value |
| Desec.TxtRoundTripIff | apps/api/src/dkim/desec.ts:37-66 | for any content whose bare value holds no quote: decoding its encoding gives that value if and only if it is empty or its first chunk is not all white space |
| Desec.TxtRoundTrip | apps/api/src/dkim/desec.ts:37-66 | the same for quote-free values, and then encoding twice is encoding once |
| Desec.OneSpaceIsLost | apps/api/src/dkim/desec.ts:37-60 | the shortest value that does not come back |
| Desec.MxRoundTrip | apps/api/src/dkim/desec.ts:47-64 | priority and target of an MX record come back, the target without its final dot |
| Dkim.PathInjective | apps/api/src/dkim/dkim.service.ts:411-421 | two keys share a file only if they share domain name and selector |
| Dkim.DkimService.Promote | apps/api/src/dkim/dkim.service.ts:121-145 | at every statement each domain has at most one active key; afterwards the target is active since now, the key active before is retired and nothing else has changed, or on failure nothing changed |
| Dkim.DkimService.WriteKeyFile | apps/api/src/dkim/dkim.service.ts:411-416 | writing a key's file, named by domain and selector, touches no other key's file |
| Dkim.DkimService.RebuildSelectorMap | apps/api/src/dkim/dkim.service.ts:423-433 | whatever the map said, it then has exactly one line per domain with an active key, naming that key's selector |
| Dkim.DkimService.SyncKeysToDisk | apps/api/src/dkim/dkim.service.ts:388-409 | when it completes the map is right, and every active key's file is right if and only if each one that could not be written was already there |
| Dkim.DkimService.FreshSelector | apps/api/src/dkim/dkim.service.ts:339-351 | the search ends with the first of base, base-2, base-3, ... that the domain does not use |
| Dkim.CandidateInjective | apps/api/src/dkim/dkim.service.ts:347-350 | different numbers give different candidates, which is why the search ends |
| Dkim.NextSelectorShape | apps/api/src/dkim/dkim.service.ts:437-442 | the month's selector is "jm", the four digits of the year and the two of the month |
| Dkim.DkimService.Generate | apps/api/src/dkim/dkim.service.ts:54-111 | a pending key with the month's selector, or a conflict exactly when that selector is taken; map and files stay right |
| Dkim.DkimService.Activate | apps/api/src/dkim/dkim.service.ts:113-164 | the key is active since now and the key active before it retired, or the transaction fails and nothing changed; no domain loses its signer; map and files as after a sync |
| Dkim.DkimService.Retire | apps/api/src/dkim/dkim.service.ts:166-196 | the key is retired and its file gone unless the unlink failed; only its own domain can lose its signer, and only if the key was active |
| Dkim.DkimService.StartDueRotations | apps/api/src/dkim/dkim.service.ts:222-277 | exactly the overdue domains without a pending or published key whose insert succeeds get one new published key each; nothing else changes and every domain keeps its signer |
| Dkim.DkimService.PromoteReadyRotations | apps/api/src/dkim/dkim.service.ts:279-336 | exactly the waited-out published keys that resolve are promoted; in each of their domains the last of them is the active key, since now, the others and the key active before are retired, and no other key changes; no domain that had a signer loses it |
| Dkim.DkimService.RotateDue | apps/api/src/dkim/dkim.service.ts:208-220 | a whole tick: every due domain whose insert succeeds gets its one successor, the ready keys replace the active ones of their domains as above, every signer is kept, and no key made in the tick signs |
| GroupRoles.ExpandGroups | apps/api/src/ldap/mapping.ts:84-100 | terminates on every finite graph, cycles included, with exactly the reachable groups, each once |
| GroupRoles.ResolveRole | apps/api/src/ldap/mapping.ts:104-121 | the highest-ranked role mapped for some group, or the default when none is mapped |
| GroupRoles.HighestRoleWins | apps/api/src/ldap/mapping.ts:104-121 | that role, spelled out: owner if any group gives it, else admin, else member, else viewer, else the default |
| GroupRoles.MappedRoleIff | apps/api/src/ldap/mapping.ts:109-112 | of several entries for one group, up to case and outer spaces, the last counts |
| GroupRoles.UserRole | apps/api/src/ldap/mapping.ts:84-121 | the composition depends only on the reachable set |
| GroupRoles.RoleIsUnique | apps/api/src/ldap/mapping.ts:104-121 | a set of groups determines one role |
| GroupRoles.NestedRoleGrows | apps/api/src/ldap/mapping.ts:84-121 | adding memberships to a user with a mapped group never lowers the role |
| Scim.PatchFrame | apps/api/src/scim/scim.service.ts:578-623 | one patch operation changes group names and memberships only of the users it reports as touched |
| Scim.PatchFirstFrame | apps/api/src/scim/scim.service.ts:578-623 | a patch mixing renames, adds, removes and replaces leaves every untouched user's derived role right |
| Scim.OperationMeans | apps/api/src/scim/scim.service.ts:587-617 | what one operation does to memberships and group rows, its name and path in any case: "add" makes every listed user of the organisation a member and loses none, "remove" takes out exactly the listed rows, or the one its path filters for, "replace" leaves exactly the listed users, a display name as a value at that path or in an object without one renames the group, anything else changes nothing; it is refused exactly for a name another group of the organisation has |
| ScimRequests.MemberValuesAreListed | apps/api/src/scim/scim.service.ts:917-932 | the ids read from a value are those it lists: bare or under "value" in an array, or under "value" of one object |
| ScimRequests.MemberFromPathIff | apps/api/src/scim/scim.service.ts:935-939 | the id read from a path is that of the leftmost `members[value eq "..."]` in it, in any case and spacing, if there is one |
| ScimRequests.UuidShape | apps/api/src/scim/scim.service.ts:872-876 | groups of 8, 4, 4, 4 and 12 hexadecimal digits between dashes are an id |
| Scim.ScimService.RecomputeRoles | apps/api/src/scim/scim.service.ts:734-758 | every touched user gets the role of the groups left, or the default, every other derived role is right again, and no other role changes |
| Scim.ScimService.AddMembers | apps/api/src/scim/scim.service.ts:674-696 | adds exactly the ids that name users of the organisation, in either case of their letters, and returns those users |
| Scim.ScimService.RemoveMembers | apps/api/src/scim/scim.service.ts:698-718 | removes exactly the named members, and returns the users they name |
| Scim.ScimService.SetMembers | apps/api/src/scim/scim.service.ts:662-672 | the members become exactly the resolved ids |
| Scim.ScimService.CreateGroup | apps/api/src/scim/scim.service.ts:545-576 | the new group with exactly the listed users of the organisation, or a conflict, for an empty or taken name only, that changes nothing; the role of everyone whose groups changed is right |
| Scim.ScimService.PatchGroup | apps/api/src/scim/scim.service.ts:578-623 | all operations in order, each as OperationMeans says, or none, at the first whose name is taken; everyone whose groups or their names changed, and every user an operation names or regroups, has the derived role, and no other role changes |
| Scim.ScimService.ReplaceGroup | apps/api/src/scim/scim.service.ts:625-649 | the name replaced if one is given, and the members by exactly the listed users; a conflict exactly for a taken name; old and new members' roles right and no other changed |
| Scim.ScimService.DeleteGroup | apps/api/src/scim/scim.service.ts:651-660 | the group and its memberships gone; former members' roles right and no other changed |
| Scim.ScimService.CreateUser | apps/api/src/scim/scim.service.ts:307-364 | a conflict exactly for a name that is no address, a name taken up to case, or a user already there; otherwise a SCIM row for the existing or new local user, the default role for a user who had none in the organisation and no other role changed; every derived role right |
| Scim.ScimService.UpdateUser | apps/api/src/scim/scim.service.ts:366-436 | exactly that row's user name, external id and active flag are replaced, or a conflict exactly for a user name taken up to case; no role changes |
| Scim.ScimService.DeleteUser | apps/api/src/scim/scim.service.ts:438-458 | the row and its memberships gone, every other user's derived role right |
| Worker.LockKey | apps/api/src/worker.ts:117-121 | wrapping to 32 bits on every character gives what wrapping once at the end gives: a key from 1 to 2^31 - 1 |
| Worker.TicksExclude | apps/api/src/worker.ts:79-95 | in every interleaving of any number of sessions, with query errors, crashes and disconnects at any time: of two running ticks of one loop, one has lost its connection under its body |
| Worker.SafeForeverIff | apps/api/src/worker.ts:79-95 | from any state, every continuation without such a loss keeps one running tick per loop if and only if every running body's session owns its loop's lock |
| Worker.LostSessionBreaksExclusion | apps/api/src/worker.ts:79-95 | a lost connection ends that if and only if a body was running on it |
| Worker.ReachableSafeIff | apps/api/src/worker.ts:79-95 | after every run: exclusion lasts if and only if no body is running without its connection |
| Worker.OverlapIsReached | apps/api/src/worker.ts:79-95 | a run from the start in which two webhook ticks overlap |
| Worker.SkippedOnlyForATick | apps/api/src/worker.ts:79-95 | without lock-query errors idle sessions hold no lock, and a tick is turned away only for another that runs or is unlocking |
| Worker.FailedUnlockStarvesOthers | apps/api/src/worker.ts:88-94 | an unlock that errs leaves the lock with an idle session: every other session is refused, and the session's own later ticks run and unlock without giving it back |
| Webhooks.WebhooksService.SelectDue | apps/api/src/webhooks/webhooks.service.ts:198-204 | the due rows, oldest first, at most 50, none skipped for a later one |
| Webhooks.WebhooksService.RunTick | apps/api/src/webhooks/webhooks.service.ts:188-277 | every selected delivery makes one attempt: its count goes up by one, a 2xx delivers it, any other outcome before the sixth makes it due again after exactly its backoff, the sixth never; no other row changes; each is counted once as delivered or failed |
| Webhooks.SavedAllAt | apps/api/src/webhooks/webhooks.service.ts:240-274 | that attempt for each row of a batch, timed when its own update ran |
| Webhooks.SaveMakesAttempt | apps/api/src/webhooks/webhooks.service.ts:240-283 | in every run, whatever other replicas do, a saved outcome makes exactly that one attempt of its delivery, and touches no other |
| Webhooks.StepKeeps | apps/api/src/webhooks/webhooks.service.ts:188-277 | the invariant tying requests, attempts and recorded results survives every step of every replica, deletions and new events included |
| Webhooks.DeliverySafety | apps/api/src/webhooks/webhooks.service.ts:35-37 | in every run one webhook tick runs at a time, attempts never exceed 6, a delivery stays due, within six hours, until and only until it is delivered or has made six attempts, requests never exceed attempts plus requests whose result was not saved, and a delivery none of whose 2xx went unsaved is delivered |
| Webhooks.NextRequest | apps/api/src/webhooks/webhooks.service.ts:198-283 | in every run the next request follows a 2xx if and only if a 2xx of that delivery went unsaved; it is never a seventh attempt, and never sooner than the backoff unless the last request went unsaved |
| Webhooks.CrashFreeDelivery | apps/api/src/webhooks/webhooks.service.ts:188-277 | in every crash-free run: at most `attempts` requests, at most six, nothing after a 2xx |
| Webhooks.LostRecordStaysDue | apps/api/src/webhooks/webhooks.service.ts:242-256 | in every run, a 2xx whose update fails leaves the delivery due |
| Webhooks.RequestedAgain | apps/api/src/webhooks/webhooks.service.ts:188-256 | a run from the start in which a delivery already answered 2xx is requested again |
| CredentialStore.RedisStore.Store | apps/api/src/webmail/credential.store.ts:52-60 | credential and index written in one transaction, with the same lifetime |
| CredentialStore.RedisStore.Get | apps/api/src/webmail/credential.store.ts:75-83 | the stored value if live, with both lifetimes renewed by separate commands |
| CredentialStore.RedisStore.Remove | apps/api/src/webmail/credential.store.ts:103-111 | credential and index entry gone |
| CredentialStore.RedisStore.PurgeSession | apps/api/src/webmail/credential.store.ts:118-125 | exactly the indexed credentials and the index gone |
| CredentialStore.GetKeepsIff | apps/api/src/webmail/credential.store.ts:75-83 | a get that renews a credential keeps every live credential covered by the index exactly when its last command comes before the index expires (or after the renewed credential itself has) |
| CredentialStore.PurgeLeavesNoneIff | apps/api/src/webmail/credential.store.ts:118-125 | logout leaves no live credential exactly when the live index holds them all; when it does is GetKeepsIff and RunIsCovered |
| CredentialStore.CoveredIffGuarded | apps/api/src/webmail/credential.store.ts:45-125 | in every run, however slow: the index covers all live credentials after every operation if and only if every get meets GetKeepsIff's condition |
| CredentialStore.RunIsCovered | apps/api/src/webmail/credential.store.ts:45-125 | it does in every run in which a get that finds its credential ends before that credential would have expired, and a logout then leaves none |
| CredentialStore.LogoutLeavesNone | apps/api/src/webmail/credential.store.ts:45-125 | the same from an empty store |
| CredentialStore.LogoutMissesCredential | apps/api/src/webmail/credential.store.ts:75-125 | a run of the code after which a credential outlives the logout |
| CredentialStore.SettingsStore.Get | apps/api/src/webmail/credential.store.ts:84-100 | the row's value if not expired, its expiry renewed; an expired row is removed |
| CredentialStore.SettingsStore.SweepExpired | apps/api/src/webmail/credential.store.ts:133-145 | exactly the expired rows removed, and their number |
| CredentialStore.SameAnswersIff | apps/api/src/webmail/credential.store.ts:45-145 | for every such run, time passing between commands and sweeps anywhere: both backends give the same answers if and only if no get falls in the last fraction of a second of a lifetime |
| CredentialStore.BackendsAgree | apps/api/src/webmail/credential.store.ts:45-145 | the same from empty stores |
| CredentialStore.InstantIsPrompt | apps/api/src/webmail/credential.store.ts:45-145 | runs whose operations take no time are such runs |
| CredentialStore.SlowGetDiverges | apps/api/src/webmail/credential.store.ts:75-100 | a get too slow to renew its credential in Redis renews the row all the same, and the next get tells the backends apart |
| CredentialStore.WholeSecondsAgree | apps/api/src/webmail/credential.store.ts:62-100 | on a clock of whole seconds there is no such get |
| Throttler.ThrottlerGuard.HitMemory | apps/api/src/common/throttler.guard.ts:104-120 | a hit joins its key's window or opens one when there is none or it is over; the answer is the window's count and its remaining time in whole seconds rounded up, from 1 to its length; other unexpired buckets stay as they are |
| Throttler.ThrottlerGuard.Sweep | apps/api/src/common/throttler.guard.ts:122-126 | removes exactly the expired buckets |
| Throttler.ThrottlerGuard.Accepts | apps/api/src/common/throttler.guard.ts:63-80 | accepted exactly when the count is within the route's limit |
| Throttler.SweepingChangesNothing | apps/api/src/common/throttler.guard.ts:104-126 | over every trace, sweeping at any points never changes an answer |
| Throttler.AtMostLimitPerWindow | apps/api/src/common/throttler.guard.ts:104-120 | each key accepts at most the limit in one window, whatever other keys do |
| Throttler.AtMostTwice | apps/api/src/common/throttler.guard.ts:104-126 | at most twice the limit in any interval of the window's length, ends included |
| Throttler.TwiceIsReached | apps/api/src/common/throttler.guard.ts:104-120 | the factor two is reached for every limit and window, by two full bursts one window apart |
| Uploads.AppendKeepsIff | apps/api/src/attachments/attachments.service.ts:149-178 | an attempt, whichever of its steps fail, keeps the staged bytes equal to the source up to the offset exactly when it stores nothing, or its read and update succeed, or the failed read or lost update had nothing to miss |
| Uploads.RunStaysAligned | apps/api/src/attachments/attachments.service.ts:133-181 | so does any run of accepted, rejected, stalled and repeated attempts |
| Uploads.ResumeCompletes | apps/api/src/attachments/attachments.service.ts:115-181 | from wherever a run stopped, sending the rest at the recorded offset completes the upload |
| Uploads.LostUpdateDuplicates | apps/api/src/attachments/attachments.service.ts:170-179 | a lost update followed by a retry stages the chunk twice |
| Uploads.FailedFinaliseKeepsIff | apps/api/src/attachments/attachments.service.ts:232-251 | a finalise that fails keeps a complete upload's staged bytes right exactly when it had not removed them yet, or there were none |
| Uploads.EmptyAppendRestages | apps/api/src/attachments/attachments.service.ts:155-180 | after that, an empty chunk makes the upload finalisable again, with nothing in it |
| Uploads.AttachmentsService.CreateUpload | apps/api/src/attachments/attachments.service.ts:61-113 | a new empty upload, or a refusal exactly above the limit |
| Uploads.AttachmentsService.AppendChunk | apps/api/src/attachments/attachments.service.ts:133-181 | the staged object and offset move together; other uploads untouched; each error exactly under its condition |
| Uploads.AttachmentsService.FinaliseUpload | apps/api/src/attachments/attachments.service.ts:183-279 | under any failures at most one row per organisation and hash, every row's object matching it, finished objects never changed; success means the staged bytes are stored under their hash; a failure keeps the upload row, and loses the staged object exactly when it came after the removal |
| Uploads.UploadAll | apps/api/src/attachments/attachments.service.ts:61-279 | create, any attempts, finalise: stores exactly the source, and succeeds exactly when all of it arrived |
| Mbox.UnescapeInvertsEscape | apps/api/src/retention/export.service.ts:194-200 | removing one ">" per quoted line inverts the escape on every text |
| Mbox.LfReaderRecoversIff | apps/api/src/retention/export.service.ts:194-200 | a reader with LF line ends recovers a message exactly when no CR stands right before a quotable line |
| Mbox.CrBeforeFromIsKept | apps/api/src/retention/export.service.ts:194-200 | a message it does not recover |
| Mbox.ReadEntry | apps/api/src/retention/export.service.ts:163-166 | a message's text ends exactly where the next "From " line begins |
| Mbox.BuildMbox | apps/api/src/retention/export.service.ts:145-174 | the nested loops write the messages that have a source, of the folders that lock, and count them |
| Mbox.ExportedInPlace | apps/api/src/retention/export.service.ts:145-174 | what is exported: every message with a source in its place, unless its folder cannot be locked, and nothing else |
| Mbox.ExportRoundTrip | apps/api/src/retention/export.service.ts:145-200 | reading the export gives every message byte for byte, and their number |
| Migrate.Store.CopyOne | packages/storage/src/migrate.ts:52-72 | what a key holds after a copy that succeeds, fails or is cut short; no other key changes |
| Migrate.MigrateStorage | packages/storage/src/migrate.ts:74-113 | copied + skipped + failed is the number of objects processed, sizes and failures add up, and each key holds what its outcome says |
| Migrate.CleanRunCompletes | packages/storage/src/migrate.ts:7-9 | after a clean run every listed key is at the target in its source size, and copied ones byte for byte |
| Migrate.UnlistedUntouched | packages/storage/src/migrate.ts:88-111 | keys not listed are never touched, however the run ends |
| Migrate.RerunSkips | packages/storage/src/migrate.ts:9-10 | an immediate run after a clean one copies nothing |
| Migrate.ResumeCompletes | packages/storage/src/migrate.ts:7-10 | any failed or interrupted run, then one without faults: every source key under the prefix is there in its size, and a third run skips it all |

## Left out

- Folding or chunking inside a surrogate pair: the source counts UTF-16 units, two for a character beyond the basic plane, where the model counts characters.
- Character classes beyond ASCII in case mapping: `toLowerCase` and `toUpperCase` change ASCII letters only.
- VCardRoundTrip.RoundTripIffCanonical: counts a label with a capital letter outside ASCII as canonical, because of that case mapping.
- Desec.TxtRoundTripIff: does not cover values that themselves hold quotes, which the encoder takes for quoting.
- SieveCorrect.ScriptMeansRules: does not cover names that leave their comment and spell commands without effect, such as an empty block; whether a name stays a comment is stated exactly.
- DnsConverge.SyncConverges: is for expected rows of which none claims another's record, as the table's unique key per purpose, name and type intends.
- Sieve beyond what the compiler writes: numbers, multi-line strings, bracket comments, comparators other than the default, and other extensions; a bare LF is accepted where the standard writes CRLF.
- The JavaScript date constructor: it is the parameter `newDate` of the iCalendar codec, constrained only where the round trip needs it; years before 1000 and after 9999 are outside the round trip.
- DNS providers that replace a whole record set (deSEC): the convergence results are for providers with an id per record that list records in a stable order and store contents as given. CAA parsing and the resolver check loop are not modelled.
- The dns_records rows written with a DKIM key, audit entries and role checks: they do not influence what is proved.
- DKIM and SCIM operations of two processes at once: operations run one after another; each statement of a DKIM transaction is still a step, and a failed transaction is rolled back.
- Dkim.DkimService.RebuildSelectorMap: does not model ORDER BY; the lines come in any order.
- SCIM configuration changes, manual role edits, invitations and LDAP synchronisation, which change roles or the role map without recomputing; and listing and filtering.
- LDAP attribute mapping and snapshot deactivation: easy, or dependent on tables not shown.
- Webhook bodies, signatures and endpoint counters; the process clock and the database clock of the backoff are one clock.
- Webhooks.DeliverySafety: is for runs in which no webhook tick loses its lock session under its body; what then becomes of exclusion is stated exactly in the Worker rows.
- Credential keys are pairs of session and mailbox: session ids that contain the separators or LIKE wildcards are not modelled. Sealing and opening, there and for DKIM keys, are inverse.
- CredentialStore.SameAnswersIff: does not cover a get that is still running when the credential it found would have expired; a get so slow makes the backends differ, or the index miss the credential, as proved beside it.
- The Redis form of the rate limiter.
- Storage puts that fail leave the upload's object as it was; thumbnails, virus status and expiry of uploads are not modelled.
- Migration while the source changes, and object metadata.
- Message fetching, folder listing and date formatting behind the mbox export: folders, sources and dates are inputs, and a date text has no line break.
- Controllers, schemas, user interface, network clients, cryptography and address checks: no algorithm of this kind.
