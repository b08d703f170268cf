# Root Herald client: a verified model

This project models the Windows client of Root Herald and proves properties of the model. The client enrolls a
machine by minting an endorsement key and an attestation key (AK) in its TPM, answering one credential challenge and
making the AK persistent. Later it collects evidence: PCR values, a quote over a caller's nonce, the boot log and a
certificate chain. `dafny verify dfyconfig.toml` checks everything.

How the model is laid out:

- **Bytes and the TPM.** `Bytes` holds fixed-width integers in both byte orders. `TpmWire` decodes a command buffer
  the way a TPM does (Part 1 of the TPM 2.0 Library Specification for the frame, Part 3 for each command), and
  `TpmWireRoundTrip` encodes it. `TpmDevice.Tpm` is the TPM behind TBS: per-context transient objects and sessions,
  persistent keys and NV indices, and PCRs that any software may extend between two commands. It takes **bytes**: a submitted buffer is decoded and either performed, with a
  well-formed reply, or refused at will. A refused command changes nothing, except that a handle whose flush was
  refused is recorded as lost. The TPM also keeps a tally of what it refused (flushes, probes for a key that is there,
  NV indices that exist, anything else) and a log of what was submitted, so that contracts can say that a call fails,
  finds nothing or leaves something behind only for a reason, and which commands it sent.
- **Commands.** `TpmMarshal` is the byte vectors grown by `Write*`, `TpmCommandBytes` the command builders, each proved
  to decode to the operation intended, `TpmLiterals` the same commands as literal bytes, `TpmReplies` the reply layouts, and `TpmCommands.TpmCommands` the class that
  sends, parses and loops. `PcrBitmap` is the three-byte selections and `IntelChain` the on-die chain cutter.
- **Enrollment.** `TbsKeyProvider.Provider` is the handle-owning state machine, `Enrollment.Client` the driver with its
  `g_enrollProvider`. `EnrollmentRuns` is the protocol as a state machine. `Client.Run` makes any sequence of calls and
  hands back a record of it: what was called, what was returned, the state and the log in between, each call accounted
  for and the whole a run of the protocol. `EnrollmentHistory` states the lemmas about runs over that record, in terms
  of calls, statuses, emitted texts and submitted commands. `EnrollmentCanSucceed` shows that the device's rules leave
  success possible, command by command.
- **Messages.** `Json` is the flat builder and the substring-search reader, `JsonRoundTrip` what the reader returns
  from what the builder wrote, `JsonForeign` what it returns from objects that other programs write, `JsonNesting`
  objects inside objects, `JsonValues` the values put in them, and `PemRoundTrip` what comes out of those.
  `EnrollmentMessages`, `EvidenceText`, `SecureBootText` and `Evidence` apply this to the objects the client emits.
  `EvidencePcrs` is about PCR values read one by one and then quoted. `DeviceId`, `Base64` and `Intermediates` are the rest of the client's own computation.
- **Measured boot.** `EfiVariable`, `EventLog`, `SignatureList` and `ChainReport` are the parsers and the two folds;
  the `*RoundTrip` modules print each format and prove that parsing undoes printing. `ChainReportFlags`
  says when the report's flags are about its lists. `ChainReportExample` is one printed log worked through to its
  report, and `SecureBootExample` takes the same log on to the evidence. `SecureBootLog` says what analysis and report
  find in any printed log, by literal names, event types and GUIDs.

Loops are loops and mutable objects are classes, as in the source; each is proved against a function of its inputs
or of the old state, and the lemmas are about those functions. Sizes are those of the x64 build: 16-bit, 32-bit and
64-bit fields wrap where the source's do, and `size_t` never does.

Results that are not what a reader would expect:

- `JsonGet` can return the value of another key, or text from inside one. `GetOfText` says exactly what it returns from
  any object `JsonBuild` wrote. `DecoyMisleads` is an object in which the value of one key is the name of another, and
  `NestedMisleads` one in which a nested object holds the key; `ArrayIsHarmless` shows that a match with no colon behind
  it does no harm to the next field. `ReadsEveryValue` is the exact condition, on the values in front of the key.
- The reader's bracket scan does not know quotes, so a bracket in a quoted string counts. `TextDelimitsIff` says exactly
  which objects survive it as a nested value, and `FindingsDelimitIff` what that asks of the names in certificates: a
  machine whose Platform Key was issued by `CN={` has findings that do not come out of its evidence (`BracketMisleads`).
- The reader skips blanks behind a colon but no line breaks, which JSON allows as well: a string behind one is read with
  its quotes. `ReadsIffBlank` is the exact condition. Of an escape other than that of a line feed it keeps the character
  behind the backslash (`EscapesAreLost`), so `\t` is read as `t`.
- A device id that is a lone bracket is read out of the challenge, quoted as it is there, but spliced raw into the
  activate object and not read back from that (`BracketIdMisleads`).
- The PCR values are read by one command each, before the quote. If a PCR is extended in between, the quote is of another
  value than the evidence carries (`ExtendedInBetween`). The quote is of the values carried if no PCR changed, and, where
  attestations of different digests differ, only then (`QuoteIsOfValuesIff`): checking one against the other finds out.
- With a slot of the on-die chain withheld, what is in front of it and behind it is glued together, and a certificate can
  come out that was never stored (`GluedTogether`); those whole in front of it are still right (`LeadingSurvive`).
- A boot log cut inside its Spec ID header is not rejected: the header is then read as records (`CutHeaderIsRead`).
  `CutKeepsPrefixIff` and `CutSpecIdLogIff` say exactly when what is left is still a prefix: with at least sixteen bytes
  of the header left it is one record that was never logged (`CutHeaderReadsAs`, `CutHeaderMisleads`).
- A Secure Boot variable measured twice has the flags of both measurements and the list of the last only. A flag agrees
  with its list exactly when no earlier measurement raised it or the last raises it too (`FlagAgreesIff`), and the
  verdict with the lists exactly when what is still listed is enough or what ever was listed is not (`ValidAgreesIff`).
  `FlagsOutliveList` is a log in which db is measured again, empty: the list is empty, the flag stands, and the chain is
  called valid because of it.
- The version digit of the device id is stamped in network byte order and printed after the .NET byte swap, so it is
  not where a reader of the text looks for it (`VersionIsPrintedSwapped`).
- What `Quote` hands out as the signature is everything behind the attestation. A reply to a command with sessions
  ends in its authorization area (Part 1 of the TPM 2.0 Library Specification), which is never empty: what is handed out
  is never the chip's signature alone, but always that signature and that area behind it.
- A nonce of 65536 bytes or more makes the quote command something else than a quote over it (`QuoteIsIntended`): if it
  is a command at all, it quotes the front of the nonce, as much as the 16-bit size says (`QuoteTakesFront`).
- The comment at src/boot/event_log_parser.cpp:66 speaks of a 256-character cutoff of variable names. The code has
  none; names of more than 1024 characters are rejected (src/boot/efi_variable.h:54). The model follows the code.
- `TPM2_RH_ENDORSEMENT` at src/tpm/tpm_commands.cpp:35 is defined with the value of `TPM_RS_PW`. It is not used; the
  commands carry the right value as a literal.

## Model

| member | source | states |
|---|---|---|
| TpmWireRoundTrip.DecodeOfEncode | src/tpm/tpm_commands.cpp:43-163 | every well-formed command that fits the 32-bit size field is recovered from its encoding: the decoder the command buffers are judged by inverts the wire format |
| TpmCommandBytes.SizedFrame | src/tpm/tpm_commands.cpp:194-200 | after the size patch a frame's tag, code, handles, authorizations and parameters are recovered exactly when the buffer's length fits 32 bits |
| TpmMarshal.AkTemplateBytes | src/tpm/tpm_commands.cpp:101-128 | the bytes written field by field are the AK template's, with its TPM2B size |
| TpmMarshal.EkTemplateBytes | src/tpm/tpm_commands.cpp:130-163 | the bytes written field by field are the EK template's, with its policy and TPM2B size |
| TpmMarshal.WriteAkTemplate | src/tpm/tpm_commands.cpp:104-128 | appends the framed AK template and nothing else |
| TpmMarshal.WriteEkTemplate | src/tpm/tpm_commands.cpp:131-163 | appends the framed EK template and nothing else |
| TpmMarshal.WritePasswordAuth | src/tpm/tpm_commands.cpp:88-99 | appends an authorization area whose size is its bytes, holding one empty password |
| TpmCommandBytes.FlushCommand | src/tpm/tpm_commands.cpp:338-346 | the buffer decodes to a flush of that handle |
| TpmCommandBytes.PcrReadCommand | src/tpm/tpm_commands.cpp:226-235 | the buffer decodes to a read of the SHA-256 bank with that one-PCR bitmap |
| TpmCommandBytes.QuoteCommand | src/tpm/tpm_commands.cpp:287-306 | the buffer decodes to whatever QuoteRequest says, for every nonce |
| TpmCommandBytes.QuoteIsIntended | src/tpm/tpm_commands.cpp:292-306 | that is a quote by the handle, over the nonce, of the listed PCRs if and only if the nonce is shorter than 65536 bytes |
| TpmCommandBytes.QuoteTakesFront | src/tpm/tpm_commands.cpp:292-306 | whatever the length of the nonce, the command is refused as malformed or is a quote by that handle over the front of the nonce |
| TpmCommandBytes.CreateAkCommand | src/tpm/tpm_commands.cpp:356-372 | the buffer decodes to CreatePrimary of the AK template under the parent, every inner size right |
| TpmCommandBytes.CreateEkCommand | src/tpm/tpm_commands.cpp:405-419 | the buffer decodes to CreatePrimary of the EK template under the endorsement hierarchy |
| TpmCommandBytes.StartSessionCommand | src/tpm/tpm_commands.cpp:448-460 | the buffer decodes to an unsalted, unbound SHA-256 policy session with the fixed nonce |
| TpmCommandBytes.PolicySecretCommand | src/tpm/tpm_commands.cpp:482-490 | the buffer decodes to PolicySecret of the endorsement hierarchy on that session |
| TpmCommandBytes.ActivateCommand | src/tpm/tpm_commands.cpp:507-528 | the buffer decodes to whatever ActivateRequest says, for any two blobs |
| TpmCommandBytes.ActivateIsIntended | src/tpm/tpm_commands.cpp:524-528 | that is the activation of two given blobs if and only if what was sent unwrapped is their two TPM2B framings |
| TpmCommandBytes.EvictCommand | src/tpm/tpm_commands.cpp:598-603 | the buffer decodes to EvictControl by the owner of that object and slot |
| TpmCommandBytes.NvReadPublicCommand | src/tpm/tpm_commands.cpp:626-628 | the buffer decodes to NV_ReadPublic of the index |
| TpmCommandBytes.NvReadCommand | src/tpm/tpm_commands.cpp:665-671 | the buffer decodes to NV_Read of the index, by itself, with that size and offset |
| TpmCommandBytes.ReadPublicCommand | src/tpm/tpm_commands.cpp:561-563 | the buffer decodes to ReadPublic of the handle |
| TpmLiterals.QuoteIs | src/tpm/tpm_commands.cpp:287-306 | the quote as literal bytes: tag, size, code, key, empty password, nonce behind its size, RSASSA with SHA-256, one bank |
| TpmLiterals.CreateIs | src/tpm/tpm_commands.cpp:356-419 | CreatePrimary as literal bytes around the template |
| TpmLiterals.ActivateIs | src/tpm/tpm_commands.cpp:507-528 | ActivateCredential as literal bytes: the two keys, the password and the session, the two blobs in order |
| TpmLiterals.StartIs | src/tpm/tpm_commands.cpp:448-460 | StartAuthSession as literal bytes, with the fixed nonce |
| TpmLiterals.PolicySecretIs | src/tpm/tpm_commands.cpp:482-490 | PolicySecret as literal bytes |
| TpmLiterals.EvictIs | src/tpm/tpm_commands.cpp:598-603 | EvictControl as literal bytes |
| TpmLiterals.NvReadIs | src/tpm/tpm_commands.cpp:665-671 | NV_Read as literal bytes |
| TpmLiterals.PcrReadIs | src/tpm/tpm_commands.cpp:226-235 | PCR_Read as literal bytes |
| TpmLiterals.FlushIs | src/tpm/tpm_commands.cpp:338-346 | FlushContext as literal bytes |
| TpmLiterals.AkTemplateIs | src/tpm/tpm_commands.cpp:101-128 | the AK template as literal bytes, attributes included |
| TpmLiterals.EkTemplateIs | src/tpm/tpm_commands.cpp:130-163 | the EK template as literal bytes around its policy |
| TpmLiterals.EvidenceBitmapIs | src/client/rootherald_win.cpp:509-529 | the bitmap of the six PCRs is 9F 00 00 |
| TpmDevice.Tpm.Submit | src/tpm/tpm_commands.cpp:205-210 | one step of the TPM: the decoded command is performed with a well-formed reply or refused with the state unchanged, refused flushes being remembered |
| TpmCommands.HrFromTpmRc | src/internal/win_status.h:38-43 | failed if and only if the response code is non-zero |
| TpmCommands.TpmCommands.Open | src/tpm/tpm_commands.cpp:167-180 | opens a fresh empty context or leaves everything as it was; idempotent |
| TpmCommands.TpmCommands.Close | src/tpm/tpm_commands.cpp:182-185 | the context goes with everything in it, and nothing else changes |
| TpmCommands.TpmCommands.SendCommand | src/tpm/tpm_commands.cpp:188-219 | patches exactly the size bytes, submits the buffer as one step of the TPM, and hands back its reply; not open means nothing sent |
| TpmCommands.TpmCommands.FlushContext | src/tpm/tpm_commands.cpp:338-346 | one flush: the handle is gone, or remembered as lost |
| TpmCommands.TpmCommands.CreateEk | src/tpm/tpm_commands.cpp:401-433 | on success exactly one new transient key of the EK template, whose handle is returned; otherwise nothing changed |
| TpmCommands.TpmCommands.CreateAndLoadAk | src/tpm/tpm_commands.cpp:349-398 | on success exactly one new transient key of the AK template, and the public area returned is that key's, framed |
| TpmCommands.TpmCommands.IsPersistentPresent | src/tpm/tpm_commands.cpp:559-574 | present only if a key is there, absent only if none is or the TPM refused to show one that is; the state does not change |
| TpmCommands.TpmCommands.Evict | src/tpm/tpm_commands.cpp:579-615 | one EvictControl: the key in the slot, the slot cleared, or nothing |
| TpmCommands.TpmCommands.EvictControl | src/tpm/tpm_commands.cpp:576-616 | success puts exactly that key in the slot; failure leaves the slot as it was or empty; the commands sent are one of three sequences |
| TpmCommands.TpmCommands.StartSession | src/tpm/tpm_commands.cpp:446-478 | success opens one new session and returns its handle from the right offset; failure opens none |
| TpmCommands.TpmCommands.SatisfyPolicy | src/tpm/tpm_commands.cpp:480-502 | success marks that session satisfied, failure changes nothing |
| TpmCommands.TpmCommands.Activate | src/tpm/tpm_commands.cpp:506-551 | the secret parsed out of the reply is what the chip unseals for these two keys and blobs |
| TpmCommands.TpmCommands.RunActivation | src/tpm/tpm_commands.cpp:445-552 | at most one session is opened whichever command fails, its handle is handed to the caller, and success means the three commands in order |
| TpmCommands.TpmCommands.ActivateCredential | src/tpm/tpm_commands.cpp:436-557 | with no flush refused the state is exactly as it was, whichever command fails; with one refused, the one session it opened is left and remembered as lost, and nothing else; at most one activation is submitted; the secret is empty unless the result is S_OK, and then is what the chip unseals; it fails if and only if the TPM refused one of the three |
| TpmCommands.SessionRound | src/tpm/tpm_commands.cpp:554-556 | a session opened, used and flushed: with the flush performed the context is as it was, with it refused that session is left, and lost |
| TpmCommands.TpmCommands.PcrRead | src/tpm/tpm_commands.cpp:222-275 | success returns the contents of that PCR, and only for an index below 24; for a PCR that is there it fails only if the TPM refused |
| TpmCommands.TpmCommands.Quote | src/tpm/tpm_commands.cpp:278-336 | the attestation is the chip's of the command's qualifying data by that key; the signature is exactly the chip's over it followed by the reply's authorization area, which is never empty; it fails if and only if the TPM refused |
| TpmCommands.TpmCommands.ReadNvSize | src/tpm/tpm_commands.cpp:623-652 | the size found inside the public area is that of the index, and not zero |
| TpmCommands.TpmCommands.ReadNvChunk | src/tpm/tpm_commands.cpp:665-703 | one chunk is the index's contents from the offset, non-empty and no longer than asked |
| TpmCommands.TpmCommands.ReadNvData | src/tpm/tpm_commands.cpp:619-708 | success returns the whole index whatever the short reads; the 16-bit offset is always the bytes collected; every request lies inside the index; the loop terminates; failure returns nothing, and means that the index is absent, empty or withheld |
| TpmCommands.TpmCommands.ReadIntelOdcaIntermediates | src/tpm/tpm_commands.cpp:742-776 | appends what is cut from the concatenation of the sixteen slots, each as it is or withheld, up to eight certificates |
| TpmReplies.ReadDigest | src/tpm/tpm_commands.cpp:247-274 | on any reply bytes, no read out of range, and the result is the digest after the selections or none |
| TpmReplies.SkipSelectionLoop | src/tpm/tpm_commands.cpp:253-258 | the cursor loop lands where skipping that many selections does, or stops at the end of the reply |
| TpmReplies.SelectionsAreBounded | src/tpm/tpm_commands.cpp:251-258 | a 32-bit count is no threat: every selection skipped takes at least three bytes, so the reply bounds the loop |
| TpmReplies.FirstDigestOf | src/tpm/tpm_commands.cpp:247-272 | in any well-formed reply, whatever selections come first and however large, the result is the first digest |
| TpmReplies.CreatedReply | src/tpm/tpm_commands.cpp:384-395 | the handle and the framed public area are where the parser reads them |
| TpmReplies.RecoveredReply | src/tpm/tpm_commands.cpp:542-547 | the recovered secret is where the parser reads it |
| TpmReplies.AttestedReply | src/tpm/tpm_commands.cpp:318-333 | the attestation and the verbatim signature are where the parser reads them |
| TpmReplies.NvDescribedReply | src/tpm/tpm_commands.cpp:638-651 | the data size is behind a policy of any length, where the parser reads it |
| PcrBitmap.OneBitmap | src/tpm/tpm_commands.cpp:233-234 | the bitmap PcrRead sends is that of the one-element list |
| PcrBitmap.UnionBitmap | src/tpm/tpm_commands.cpp:302-305 | the bitmap Quote sends is that of the list |
| PcrBitmap.BitmapOfSelects | src/tpm/tpm_commands.cpp:302-305 | bit i is set if and only if i is in the list and below 24 |
| PcrBitmap.BitmapIsUnion | src/tpm/tpm_commands.cpp:233-235 | Quote's bitmap is the union of the bitmaps PcrRead sends over the same list |
| PcrBitmap.BitsWeigh | src/tpm/tpm_commands.cpp:302-305 | bit k weighs 2 to the k: the bits of a byte add up to it |
| IntelChain.DerObjectSize | src/tpm/tpm_commands.cpp:716-737 | the loop computes the size of the definite-length SEQUENCE at the offset, 0 when there is no whole one |
| IntelChain.LengthFits32Bits | src/tpm/tpm_commands.cpp:730-735 | a length of at most four bytes is below 2^32, so no 64-bit sum wraps |
| IntelChain.CutChain | src/tpm/tpm_commands.cpp:763-775 | the loop appends exactly what Cut takes from the front of the stream, up to eight in all |
| IntelChainRoundTrip.ChainSurvivesChunking | src/tpm/tpm_commands.cpp:741-776 | for any list of SEQUENCEs with lengths of at most four bytes, any split into slots with gaps and any padding that opens no SEQUENCE, the first min(8, n) certificates come out unchanged and in order |
| IntelChainRoundTrip.StoredChainIsRead | src/tpm/tpm_commands.cpp:741-776 | unless the TPM withholds an index that exists, a chain stored in the sixteen indices, split as it may be, comes out unchanged |
| IntelChainRoundTrip.LeadingSurvive | src/tpm/tpm_commands.cpp:741-776 | whatever the TPM withholds, the certificates that lie whole in the slots in front of the first one withheld are the stored ones and come first |
| IntelChainRoundTrip.GluedTogether | src/tpm/tpm_commands.cpp:745-775 | a stored chain of which, with one slot withheld, a certificate is cut that was never stored |
| IntelChainRoundTrip.CutOfChain | src/tpm/tpm_commands.cpp:766-775 | the same from any offset and for any room |
| IntelChainRoundTrip.CutIsPrefix | src/tpm/tpm_commands.cpp:766-775 | whatever the stream, the certificates cut are consecutive and from its front |
| IntelChainRoundTrip.PaddingIsSafe | src/tpm/tpm_commands.cpp:768-771 | padding is safe when it is empty or its first byte is not 0x30 |
| TbsKeyProvider.Provider.Open | src/tpm/tbs_key_provider.cpp:13 | a fresh context of its own, or nothing |
| TbsKeyProvider.Provider.FlushTransients | src/tpm/tbs_key_provider.cpp:15-28 | afterwards nothing is held; what is newly lost is among the two handles held, and nothing is when no flush was refused, so that what is live is as accounted for before |
| TbsKeyProvider.Provider.DeleteAk | src/tpm/tbs_key_provider.cpp:66-70 | the same, with conservation: no held handle survives but by a refused flush |
| TbsKeyProvider.Provider.Close | src/tpm/tbs_key_provider.cpp:30-34 | the context is gone with every handle in it, and nothing else changed |
| TbsKeyProvider.Provider.CreateAk | src/tpm/tbs_key_provider.cpp:41-59 | both keys and a public area, or no handle at all, and then the TPM refused one; only its own context changes; what is newly lost is among the handles held before and, on failure, one minted key, and nothing is when no flush was refused |
| TbsKeyProvider.Provider.LoadAk | src/tpm/tbs_key_provider.cpp:61-64 | success means the slot holds a key, failure that it does not or that the TPM refused to show it; nothing is loaded |
| TbsKeyProvider.Provider.ActivateCredential | src/tpm/tbs_key_provider.cpp:78-87 | the secret is what the chip unseals for exactly the two keys held; handles, keys and conservation are kept, and with no flush refused the whole state |
| TbsKeyProvider.Provider.PersistAk | src/tpm/tbs_key_provider.cpp:89-101 | success puts the held AK in the slot and releases both transients, all but those whose flush was refused; failure keeps both, the slot unchanged or cleared, and means that the TPM refused |
| TbsKeyProvider.FlushOne | src/tpm/tbs_key_provider.cpp:20-27 | one flush, performed or refused, keeps the transients of the context equal to the handles held plus those lost |
| TbsKeyProvider.FlushedTwice | src/tpm/tbs_key_provider.cpp:15-59 | flushes before and after a mint add up: the lost are among the handles of both, and none when none was refused |
| TbsKeyProvider.Provider.MintBoth | src/tpm/tbs_key_provider.cpp:46-58 | from nothing held: both keys, or neither, an EK minted in vain being flushed again |
| TbsKeyProvider.SessionConserved | src/tpm/tbs_key_provider.cpp:86 | an activation whose session could not be flushed keeps conservation |
| EnrollmentRuns.InFlightIsLatest | src/client/rootherald_win.cpp:365-407 | of the protocol: what is in flight is the AK of the latest Begun event, with no activation since |
| EnrollmentRuns.SlotChangesByActivation | src/client/rootherald_win.cpp:428-445 | of the protocol: the slot changes only in an event with a non-empty secret |
| EnrollmentRuns.CompletedHoldsLatest | src/client/rootherald_win.cpp:437-445 | of the protocol: after a Completed event the slot holds the AK of the latest Begun one |
| EnrollmentRuns.FailedEvictionLeavesNoThirdKey | src/client/rootherald_win.cpp:439-444 | of the protocol: any other event leaves the slot as it was, or empty after a failed eviction, and never with a third key |
| EnrollmentRuns.SlotIsAccountedFor | src/client/rootherald_win.cpp:365-460 | at every point of every run the slot holds its first key, nothing, or an AK some Begun event of the run emitted |
| EnrollmentRuns.ActivationIsSingleUse | src/client/rootherald_win.cpp:416-433 | of the protocol: between any two activations there is a Begun event |
| EnrollmentHistory.EventsAreCalls | src/client/rootherald_win.cpp:367-460 | in every record, the events are what the calls and statuses say: Begun exactly for an EnrollBegin that returned OK, an activation exactly for an EnrollComplete that was not rejected |
| EnrollmentHistory.InFlightIsEmitted | src/client/rootherald_win.cpp:365-407 | after any sequence of calls, what is in flight is the AK whose public area, byte for byte, is decoded out of the object emitted by the latest successful EnrollBegin, with no credential put to the TPM since |
| EnrollmentHistory.OkHoldsEmitted | src/client/rootherald_win.cpp:437-460 | after an EnrollComplete that returned OK the slot holds exactly the AK whose public area, byte for byte, is decoded out of the object the latest successful EnrollBegin emitted |
| EnrollmentHistory.SlotChangesAreEarned | src/client/rootherald_win.cpp:428-445 | the slot changes only in an EnrollComplete whose challenge yields a non-empty secret with the keys in flight; it then holds the AK that was in flight, or nothing when the call returned AK_FAILED after a refusal |
| EnrollmentHistory.CallsAreSingleUse | src/client/rootherald_win.cpp:416-433 | between any two calls that put a credential to the TPM there is an EnrollBegin that returned OK |
| EnrollmentHistory.ActivationsAreSingleUse | src/client/rootherald_win.cpp:385-433 | on the wire: between any two ActivateCredential commands that the calls submit there is a CreatePrimary of the AK template |
| Enrollment.Client.EnrollBegin | src/client/rootherald_win.cpp:367-408 | a transition of the protocol; failure leaves the enrollment in flight and the TPM untouched; success replaces what was in flight, whose context goes, and emits the object over the new key's public area and the gathered chain, which is missing only if the TPM refused; each failure status has its one cause, and the two of the TPM mean that it refused something |
| Enrollment.Client.GatherIntermediates | src/client/rootherald_win.cpp:290-317 | the merge of the on-die chain, as its slots could be read, with the store; no chain only if the TPM could not be opened; the TPM is left as it was |
| Enrollment.Client.MintProvider | src/client/rootherald_win.cpp:385-398 | both keys in a new context and nothing else live in it, or no trace of one, and then the TPM refused |
| Enrollment.Client.Discard | src/client/rootherald_win.cpp:402 | a provider deleted and destroyed leaves no trace |
| Enrollment.Client.Park | src/client/rootherald_win.cpp:406 | one context remains: that of the new enrollment |
| Enrollment.Client.Launch | src/client/rootherald_win.cpp:385-407 | the TPM half of EnrollBegin: both keys minted and the object emitted over the new public area, or the TPM and the enrollment in flight as they were |
| Enrollment.Client.Keep | src/client/rootherald_win.cpp:437-445 | the AK in the slot, or AK_FAILED after a refusal with the slot as it was or empty; the provider is gone either way |
| Enrollment.Client.Redeem | src/client/rootherald_win.cpp:428-445 | the in-flight keys are used once whatever happens; the slot changes as the protocol says, by the secret these keys yield; no context remains |
| Enrollment.Client.EnrollComplete | src/client/rootherald_win.cpp:410-460 | a transition of the protocol; not enrolled, a malformed challenge, a failed activation and a failed eviction are told apart exactly; a rejected call sends nothing and keeps what is in flight; an activation or eviction fails only if the TPM refused or the secret it yields is empty |
| Enrollment.Client.Run | src/client/rootherald_win.cpp:365-460 | any sequence of the two calls, with the TPM refusing what it likes: returns every status and text, and a record in which each call is accounted for (its status, its cause, the text it emitted, the secret its challenge yields, the commands it submitted) and which is a run of the protocol from the first state to the last |
| Enrollment.ContextGone | src/client/rootherald_win.cpp:385-403 | a context opened, used and closed leaves the TPM as it was |
| EnrollmentCanSucceed.ActivationCanSucceed | src/tpm/tpm_commands.cpp:445-556 | a TPM may answer all four commands of an activation, and then is left exactly as it was |
| EnrollmentCanSucceed.EnrollmentCanSucceed | src/tpm/tbs_key_provider.cpp:41-101 | a whole enrollment: with the slot empty, a TPM may answer all ten commands from the first key to the last flush, in order, and once the context is closed the AK is in its slot and nothing else changed |
| EnrollmentCanSucceed.ActivationCanBeReached | src/tpm/tpm_commands.cpp:349-556 | from an empty context, the first six of them lead to both keys held and the session gone |
| EnrollmentCanSucceed.AkCanBePersisted | src/tpm/tpm_commands.cpp:101-103 | the AK template does not set stClear, so a key made of it may be made persistent |
| EnrollmentCanSucceed.KeyCanBeMade | src/tpm/tpm_commands.cpp:356-384 | a TPM may create the key asked for, at any free transient handle |
| EnrollmentMessages.EnrollReadsBack | src/client/rootherald_win.cpp:323-350 | every field of the enroll object is read back as it was put in, the spliced certificate array included |
| EnrollmentMessages.EnrollSays | src/client/rootherald_win.cpp:323-350 | under their names the enroll object gives the AK's public area, the EK's key and certificate and the chain, byte for byte |
| EnrollmentMessages.ChallengeReads | src/client/rootherald_win.cpp:420-426 | a challenge of any spacing but line breaks behind colons, with its three members in any order and among others, none of them empty, is accepted and each is read |
| EnrollmentMessages.SpacedChallenge | src/client/rootherald_win.cpp:420-426 | and so one with a blank behind each colon and comma |
| EnrollmentMessages.ActivateReadsBack | src/client/rootherald_win.cpp:449-452 | the recovered secret is always read back, byte for byte; the device id exactly when it was quoted or delimits itself |
| EnrollmentMessages.BracketIdMisleads | src/client/rootherald_win.cpp:421-452 | whatever else is in the challenge, the device id "{" is read out of it, and not read back out of the activate object it goes into |
| Intermediates.Merge | src/client/rootherald_win.cpp:294-315 | the on-die certificates first and in order, then the chosen ones of the store in order, eight at most; what that choice is, MergedDiffer, MergedAreComplete and MergedInOrder say |
| Intermediates.MergedDiffer | src/client/rootherald_win.cpp:297-312 | no certificate out of the store that hashes has the fingerprint of anything in front of it, on-die certificates included |
| Intermediates.MergedAreComplete | src/client/rootherald_win.cpp:303-314 | with fewer than eight merged, every store certificate that hashes has the fingerprint of something merged |
| Intermediates.MergedInOrder | src/client/rootherald_win.cpp:294-315 | the on-die certificates or the first eight of them, and behind them store certificates in store order |
| Intermediates.TakenAscend | src/client/rootherald_win.cpp:303-314 | the choice from the store is order-preserving and fits the room left |
| Intermediates.TakenIsNew | src/client/rootherald_win.cpp:305-311 | no certificate is taken whose fingerprint was already seen |
| Intermediates.TakenDiffer | src/client/rootherald_win.cpp:305-312 | no two certificates taken share a fingerprint, where hashing succeeds |
| Intermediates.TakenAreComplete | src/client/rootherald_win.cpp:303-314 | when room is left, every store certificate's fingerprint is represented |
| Json.JsonBuild | src/internal/json_helpers.h:16-40 | the loop writes the text of the fields: spliced values verbatim, others escaped and quoted |
| JsonForeign.TextOfOne | src/internal/json_helpers.h:16-40 | which values are embedded raw, and how the others are quoted, as literal text |
| JsonForeign.EscapeAt | src/internal/json_helpers.h:28-34 | quote, backslash and line feed are escaped, wherever they are, and nothing else |
| Json.AppendEscaped | src/internal/json_helpers.h:28-35 | the character loop writes the escape of the value |
| Json.JsonGet | src/internal/json_helpers.h:43-86 | the search, the literal loop and the bracket loop together return Get |
| JsonForeign.ForeignReads | src/internal/json_helpers.h:43-86 | from an object written by anyone, with white space around its colons and commas, each member is read, literal or bare, unless one in front has its key or spells it |
| JsonForeign.ReadsIffBlank | src/internal/json_helpers.h:51-53 | a string behind white space is read right if and only if that has no line break in it |
| JsonForeign.EscapesAreLost | src/internal/json_helpers.h:58-66 | of an escape sequence other than a line feed's the character behind the backslash is kept |
| Json.FindIsFirst | src/internal/json_helpers.h:46-49 | the position found is a match, and there is none before it |
| JsonRoundTrip.UnquoteEscape | src/internal/json_helpers.h:28-34 | reading a literal undoes escaping, for any text and whatever follows |
| JsonRoundTrip.HitInField | src/internal/json_helpers.h:45-47 | where a quoted key can match inside another field: only at the end of a decoy value, or inside a spliced one |
| JsonRoundTrip.GetOfText | src/internal/json_helpers.h:16-86 | exactly what the reader returns from any object the builder wrote, decoys and matches inside spliced values included: a field's value, the text behind a colon inside one, or nothing |
| JsonRoundTrip.ReadBack | src/internal/json_helpers.h:53-85 | one value reads back as itself if and only if it was quoted or delimits itself |
| JsonRoundTrip.GetUndoesBuild | src/internal/json_helpers.h:16-86 | where nothing in front can be mistaken for its key, a field reads back as it was put in if and only if it was quoted or delimits itself |
| JsonRoundTrip.LandsOnKey | src/internal/json_helpers.h:45-51 | the reader starts at the field's own value if and only if each value in front is clear of its key, or the one right in front points to it |
| JsonRoundTrip.ReadsEveryValue | src/internal/json_helpers.h:16-86 | the exact condition of the round trip, for any object and field: every readable value put there reads back if and only if the values in front are so |
| JsonRoundTrip.GetAbsent | src/internal/json_helpers.h:42-47 | an absent key reads as the empty string |
| JsonRoundTrip.DecoyMisleads | src/internal/json_helpers.h:45-51 | an object in which the value of one key is another key's name, and the reader returns the wrong value |
| JsonRoundTrip.NestedMisleads | src/internal/json_helpers.h:45-51 | a nested object with the same key, in front of it, is read instead |
| JsonRoundTrip.ArrayIsHarmless | src/internal/json_helpers.h:45-51 | an array that spells the key, right in front of it, matches and does no harm |
| JsonNesting.TextIsTidy | src/internal/json_helpers.h:13-15 | an object whose values are plain or balanced is balanced, so it can be a value in turn |
| JsonNesting.TextLacks | src/internal/json_helpers.h:45-47 | an object with no such key and nothing like it contains the quoted key nowhere, however deeply nested |
| JsonNesting.ReadsField | src/internal/json_helpers.h:43-86 | a field of a nested object is read back |
| JsonValues.BuildPemArray | src/client/rootherald_win.cpp:332-347 | the nested loops write the array of escaped PEMs |
| JsonValues.ArrayIsClear | src/client/rootherald_win.cpp:332-347 | the raw array is spliced, delimits itself, and contains no key's quoted name |
| JsonValues.PemIsClear | src/client/rootherald_win.cpp:83-87 | a PEM is quoted and can be taken for no key |
| PemRoundTrip.PemReads | src/client/rootherald_win.cpp:83-87 | the Base64 between the two lines decodes to the certificate |
| PemRoundTrip.ChainReads | src/client/rootherald_win.cpp:332-347 | read as a JSON array of PEMs, the array gives exactly the certificates, in order |
| JsonValues.Base64IsClear | src/client/rootherald_win.cpp:327-328 | Base64 text can be taken for a key only if it spells it, and has the length of whole quads |
| Base64.EncodeShape | src/client/rootherald_win.cpp:83-87 | whole quads of characters that are no JSON punctuation, empty only for nothing |
| Base64.DecodeOfEncode | src/client/rootherald_win.cpp:83-87 | decoding by RFC 4648 gives back the bytes encoded, whatever they are |
| Base64.EncodeIsInjective | src/client/rootherald_win.cpp:83-87 | two byte strings have one text if and only if they are the same |
| Base64.TestVectors | src/client/rootherald_win.cpp:83-87 | the test vectors of RFC 4648 |
| DeviceId.ComputeDeviceId | src/client/rootherald_win.cpp:155-184 | the id is the stamped hash printed as a .NET Guid, or empty when the fingerprint or the hash has the wrong length |
| DeviceId.GuidIsExact | src/client/rootherald_win.cpp:175-183 | the text and the sixteen bytes determine each other |
| DeviceId.IdsCollideWithHashes | src/client/rootherald_win.cpp:155-184 | two fingerprints share an id if and only if their hashes agree but for the stamped bits |
| DeviceId.VersionIsPrintedSwapped | src/client/rootherald_win.cpp:152-180 | the version digit is the seventeenth character, not the fifteenth, which holds a digit of the hash |
| DeviceId.BytesToHex | src/client/rootherald_win.cpp:71-81 | the loop writes the hex text of the bytes, which UnhexOfHex reads back |
| DeviceId.UnhexOfHex | src/client/rootherald_win.cpp:71-81 | read digit by digit, two a byte, the high one first and front to back, the text gives back the bytes, whatever they are |
| DeviceId.IdReads | src/client/rootherald_win.cpp:155-184 | an id read group by group, the first three byte-swapped, is the SHA-1 of namespace and fingerprint but for the version 5 and the variant |
| DeviceId.NamespaceIsName | src/client/rootherald_win.cpp:157-160 | the namespace is sixteen ASCII characters |
| EvidenceText.QuoteReads | src/client/rootherald_win.cpp:534-538 | nonce, attestation and signature are read back from the quote object, whatever they are |
| EvidenceText.EvidenceReadsBack | src/client/rootherald_win.cpp:562-609 | every field of the evidence is read back as it was put in; the Secure Boot report, last, exactly when it delimits itself |
| EvidenceText.NonceIsRecovered | src/client/rootherald_win.cpp:534-566 | the nonce, the attestation and the signature are recovered, byte for byte, from inside the evidence text |
| EvidenceText.PcrsAreTheQuotedOnes | src/client/rootherald_win.cpp:509-529 | the quote selects exactly the PCRs 0 to 4 and 7; read from the evidence and decoded from hex, what is under such a number is the 32 bytes of that PCR, and there is nothing under any other |
| EvidenceText.PcrFieldsRead | src/client/rootherald_win.cpp:512-522 | every PCR read is there under its number, whatever its digits, and nothing under any other |
| EvidenceText.EvidenceSays | src/client/rootherald_win.cpp:562-609 | what there is of device id, EK certificate, chain and log is recovered from the evidence under its name, byte for byte |
| EvidenceText.NumberOfDecimal | src/client/rootherald_win.cpp:521 | the text of a number reads as that number and has no leading zero |
| SecureBootText.TextDelimitsIff | src/internal/json_helpers.h:71-85 | for any object, exactly when it can be a value in turn: when its values one behind the other, quoted or not, are balanced in brackets and never close the object |
| SecureBootText.SecureBootJson | src/client/rootherald_win.cpp:541-560 | the text is that of the findings on the log, both folds over it and the verdict's prose included, or null for no log |
| SecureBootText.FindingsDelimitIff | src/client/rootherald_win.cpp:545-559 | the Secure Boot findings delimit themselves if and only if the brackets of the issuer, the OEM's name, the subject and the name the verdict quotes, in this order, are balanced |
| SecureBootText.FindingReads | src/client/rootherald_win.cpp:545-559 | a finding is read back, whatever its readable value, if and only if the texts in front of it are clear of its name or the one right in front points to it |
| SecureBootText.FindingsSayFirst | src/client/rootherald_win.cpp:545-559 | the first five findings, under their names, are those of the report |
| SecureBootText.FindingsSayLast | src/client/rootherald_win.cpp:545-559 | and so the four behind the texts, the counters as numbers, unless a text spells their name |
| SecureBootText.FindingsSayTexts | src/client/rootherald_win.cpp:545-559 | the texts are the issuer and the subject of the first certificate of PK, the OEM's name and the verdict |
| SecureBootText.VerdictSays | src/boot/secureboot_validator.cpp:320-359 | how the verdict reads for each outcome, and which name it quotes |
| SecureBootText.FindingsAreRecovered | src/client/rootherald_win.cpp:545-566 | the findings come out of the evidence if and only if these brackets are balanced |
| SecureBootExample.ComesOutIff | src/client/rootherald_win.cpp:541-566 | on a printed log, for any certificate with no brackets in its subject and OEM, the findings come out of the evidence if and only if those of the issuer's name are balanced |
| SecureBootExample.BracketMisleads | src/client/rootherald_win.cpp:541-566 | with an issuer CN={ on that log they do not come out |
| Evidence.ReadPcrValues | src/client/rootherald_win.cpp:509-523 | the loop over PcrRead writes the object of exactly the PCRs asked for, each as it was at its own command, or gives up at the first that cannot be read |
| Evidence.SelectEnrolledProvider | src/client/rootherald_win.cpp:465-470 | a provider over a key that is in the slot, or none, and then the slot is empty or the TPM refused, and is as it was |
| Evidence.QuoteIsOfSlot | src/client/rootherald_win.cpp:530-538 | what Quote returns for the persisted key is the chip's attestation by the key in the slot of the nonce, or of its front when it is too long, and its signature with something behind it |
| Evidence.DeriveDeviceId | src/client/rootherald_win.cpp:138-150 | from the certificate when there is one, else the public key, else empty |
| Evidence.Measure | src/client/rootherald_win.cpp:509-585 | each PCR value is what the PCR held at its own command, and the quote, by the persisted AK over the nonce, is of what the same PCRs held at the command right behind, whatever other software extended in between |
| EvidencePcrs.ValuesAreQuotedIff | src/client/rootherald_win.cpp:509-529 | the digests of the values read are the digests quoted if and only if no PCR changed between its own reading and the quote |
| Evidence.QuoteIsOfValuesIff | src/client/rootherald_win.cpp:509-538 | of true evidence: the quote is the attestation of the values carried if no PCR changed in between, and, where attestations of different digests differ, only then |
| Evidence.ExtendedInBetween | src/client/rootherald_win.cpp:509-529 | a TPM on which PCR 0 is extended right behind its reading: everything can be read, and the quote is of another value |
| Evidence.CollectEvidence | src/client/rootherald_win.cpp:475-635 | the evidence is true of the TPM and the machine, carries the caller's nonce where the reader finds it and the findings on the log it carries, and collecting leaves the TPM as it was; not enrolled means the slot is empty or the TPM refused, an invalid argument exactly an empty nonce, an internal error that memory ran out; with the PCRs there it fails over TPM or quote only if the TPM refused |
| EfiVariable.TryParse | src/boot/efi_variable.h:43-73 | in 64-bit arithmetic without wrap-around, the variable is parsed or rejected; all reads stay inside |
| EfiVariable.ParseOfEncode | src/boot/efi_variable.h:43-73 | an encoded variable is parsed back, whatever follows it, if and only if its name has at most 1024 characters |
| EfiVariable.EncodeOfParse | src/boot/efi_variable.h:43-73 | what was parsed is what the bytes encode |
| EfiVariable.VariableName | src/boot/efi_variable.h:77-89 | the loop with early exit renders the name |
| EfiVariable.NameOfUcs2 | src/boot/efi_variable.h:77-89 | an ASCII name is rendered as itself up to its NUL |
| EventLog.ReadDigests | src/boot/event_log_parser.cpp:160-180 | the cursor loop reads what TakeDigests takes, filed by algorithm, or reports truncation |
| EventLog.ReadRecord | src/boot/event_log_parser.cpp:143-188 | one round of the walk reads what TakeEvent takes, or stops |
| EventLog.Record | src/boot/event_log_parser.cpp:190-344 | one round of the classification keeps the summary true of the entries so far |
| EventLog.IsSecureBootEnabled | src/boot/event_log_parser.cpp:111-120 | enabled exactly when the variable is SecureBoot and its first data byte is 1 |
| SecureBootLog.SecureBootIsOn | src/boot/event_log_parser.cpp:111-120 | on any printed log, analysis and report say on if and only if the first data byte of the last SecureBoot variable is 1; otherwise the verdict is Fail |
| SecureBootLog.SecureBootIsOff | src/boot/event_log_parser.cpp:122-362 | and off when none was logged |
| SecureBootLog.KeysAreLogged | src/boot/event_log_parser.cpp:190-344 | keys of Microsoft's are reported if and only if a db or KEK variable was logged |
| SecureBootLog.LabelsAre | src/boot/event_log_parser.cpp:190-344 | the label of every event, by literal type and PCR |
| SecureBootLog.CountIsNumber | src/boot/event_log_parser.cpp:190-344 | a counter is the number of entries with its label |
| SecureBootLog.DigestSizesAre | src/boot/event_log_parser.cpp:164-172 | the sizes of the five digest algorithms, and of no other |
| EventLogRoundTrip.FiledKeepsLast | src/boot/event_log_parser.cpp:176-177 | of several digests of one algorithm the last is kept |
| EventLog.ParseAndAnalyzeEventLog | src/boot/event_log_parser.cpp:122-362 | the entries are the log's events; verified, unknown and policy counts are the numbers of entries so labelled and sum to all; Secure Boot is the value in its last event; PASS if and only if enabled with nothing unknown |
| EventLogRoundTrip.LogEventsOfPrint | src/boot/event_log_parser.cpp:122-188 | for any Spec ID header and any well-formed events, the log printed from them is read as exactly those events |
| EventLogRoundTrip.PrintOfEvents | src/boot/event_log_parser.cpp:141-188 | re-encoding what was read from any bytes reproduces exactly the bytes consumed |
| EventLogRoundTrip.FiledIsFaithful | src/boot/event_log_parser.cpp:176-177 | with distinct algorithms, filing digests by algorithm keeps every one |
| EventLogRoundTrip.EventsOfCut | src/boot/event_log_parser.cpp:141-188 | cutting the records anywhere leaves a prefix of the events |
| EventLogRoundTrip.CutLogKeepsPrefix | src/boot/event_log_parser.cpp:127-188 | cutting a log at or after the end of its skipped header leaves a prefix of its events |
| EventLogRoundTrip.EventsAreFew | src/boot/event_log_parser.cpp:143-188 | every event consumed at least 16 bytes, so the counters are bounded by the log's size |
| EventLogRoundTrip.CutHeaderIsRead | src/boot/event_log_parser.cpp:129-139 | a log cut inside its header is read from its first byte |
| EventLogRoundTrip.CutKeepsPrefixIff | src/boot/event_log_parser.cpp:127-188 | the exact condition for any log and any cut: a prefix is left if and only if the header is whole or what is read of its front is a prefix itself |
| EventLogRoundTrip.CutHeaderReadsAs | src/boot/event_log_parser.cpp:129-188 | a Spec ID header cut inside reads as nothing below sixteen bytes, and as one record that was never logged from there on |
| EventLogRoundTrip.CutSpecIdLogIff | src/boot/event_log_parser.cpp:127-188 | the exact condition for a log behind such a header, in bytes: a cut leaves a prefix of the entries if and only if it leaves less than sixteen bytes, or the whole header, or the log itself opens with that record |
| EventLogRoundTrip.CutHeaderMisleads | src/boot/event_log_parser.cpp:129-139 | a concrete cut log in which the header becomes an event, so the prefix property fails there |
| SignatureList.ParseEfiSignatureList | src/boot/secureboot_validator.cpp:203-262 | the nested loops return the certificates and the clamped hash count of the walk, never reading outside the variable and always terminating |
| SignatureList.DivisionCounts | src/boot/secureboot_validator.cpp:248-253 | the division equals the count of an explicit entry walk |
| SignatureList.ReadEntryCerts | src/boot/secureboot_validator.cpp:231-247 | the inner loop collects the entries' certificates in order, those the decoder accepts |
| SignatureListRoundTrip.WalkOfPrint | src/boot/secureboot_validator.cpp:215-257 | for any sequence of well-formed lists the walk over their encoding yields exactly their certificates and hashes |
| SignatureListRoundTrip.InVariableOfPrint | src/boot/secureboot_validator.cpp:203-262 | and so does the walk over a variable holding that encoding |
| ChainReport.LastMatchIsLast | src/boot/secureboot_validator.cpp:276-318 | the matching event found matches, and none after it does |
| ChainReport.CountedIffContained | src/boot/secureboot_validator.cpp:285-314 | a certificate counts for the flags if and only if some matching event contained it |
| ChainReport.ListIsAllIff | src/boot/secureboot_validator.cpp:285-314 | of all measurements of a variable and of its last, the certificates are the same one by one if and only if no measurement before the last held one |
| ChainReportFlags.FlagAgreesIff | src/boot/secureboot_validator.cpp:285-314 | for each of the five flags: it stands if and only if an earlier measurement or the last raises it, and agrees with its list if and only if no earlier one raised it or the last does too |
| ChainReportFlags.ValidAgreesIff | src/boot/secureboot_validator.cpp:320-359 | the chain is called valid exactly on what is or ever was listed in KEK and db, always when the lists alone are enough, and agrees with them if and only if they are or that history is not |
| ChainReportFlags.NothingForgottenIff | src/boot/secureboot_validator.cpp:285-314 | as sets, the certificates ever found are those listed if and only if every one of an earlier measurement is in the last |
| ChainReportFlags.OemNameAgreesIff | src/boot/secureboot_validator.cpp:285-293 | the OEM's name is the list's if and only if that has a known OEM or no earlier measurement gave a name |
| ChainReportExample.FlagsOutliveList | src/boot/secureboot_validator.cpp:294-301 | on a printed log in which db is measured again, empty, the report has an empty db list, the flag of the CA that was in it, and a valid chain |
| ChainReport.Absorb | src/boot/secureboot_validator.cpp:276-318 | one round of the fold keeps the report equal to the query over the entries so far |
| ChainReport.Conclude | src/boot/secureboot_validator.cpp:320-359 | the chain is valid if and only if Secure Boot is on, a PK is there, KEK has Microsoft and db has a 2011 or 2023 UEFI CA; the verdict is that of the first thing missing |
| ChainReport.ValidateSecureBootChain | src/boot/secureboot_validator.cpp:270-360 | the report equals the declarative query over all entries, lists and dbx count from the last matching event, flags from all of them |
| SecureBootLog.DbxIsCounted | src/boot/secureboot_validator.cpp:315-317 | on any printed log the count is that of the SHA-256 signatures in the last PCR 7 event named dbx, up to INT_MAX |
| SecureBootLog.ListsAreLast | src/boot/secureboot_validator.cpp:285-296 | the lists are the certificates in the last events named PK, KEK and db: those of less than 64 KB that decode, in order |
| SecureBootLog.UnmeasuredIsEmpty | src/boot/secureboot_validator.cpp:276-318 | what no event names is empty |
| SecureBootLog.DbFlagsAre | src/boot/secureboot_validator.cpp:302-314 | a flag of db stands if and only if some db event held a certificate with that text in its subject |
| SecureBootLog.KeyFlagsAre | src/boot/secureboot_validator.cpp:285-301 | and so for Microsoft's KEK and a known OEM's PK |
| SecureBootLog.OemIsNamed | src/boot/secureboot_validator.cpp:285-293 | with PK measured once the OEM is that of its last certificate of a known one |

## Left out

- WinHTTP transport, registry enumeration, the PCP property reads, process elevation and TBS internals: they are arguments or the abstract TPM.
- Cryptography and certificate decoding: hashes, the certificate decoder, the chip's credential recovery and attestation are uninterpreted functions.
- CryptoAPI Base64: encoding is modelled, the client's decoding is an argument, and nothing here assumes that they are inverse; what the other end decodes is decoded by RFC 4648.
- Other software on the same TPM, but for extending PCRs: the slot, the NV indices and the contexts of others are not touched between two commands.
- Text for people: event names, descriptions, boot application paths, and the tables of OEM and Microsoft names and thumbprints. The report's errors and warnings are kinds of problem, their prose modelled where the verdict quotes it, in characters rather than UTF-8 bytes.
- The C ABI facade: null arguments, status strings, and buffers. Allocation failure is one more failing step.
- `RootHeraldCollectLocalPosture`, the transports, and the macOS and iOS ceremonies.
- Concurrency: the header asks callers to serialize, so there is one stream of calls.
- Builds with a 32-bit `size_t`, and overflow of the bracket-depth `int` on a text of more than 2^31 brackets.
- The field map is a sequence of fields in iteration order; that std::map sorts by key is reflected in the order the fields are listed in.
- A command that the TPM performs but whose reply is lost: a refused command is one that was not performed.
- TpmCommands.TpmCommands.ReadNvData: the TPM never returns more than was asked for, as the TPM 2.0 Library Specification requires; with longer replies the 16-bit offset could wrap.
- TpmCommands.TpmCommands.ReadIntelOdcaIntermediates: a slot whose read fails is taken for an empty one, as in the source; what comes out then is the front of what is left.
- The certificate scan of the Windows store blob, and the choice between the store's certificate, the NV certificate and the vendor's.
