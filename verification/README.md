# Model of UAPKI's stateful and parsing cores

UAPKI is a library for public-key infrastructure: it signs with keys kept in PKCS #12 files or on
PKCS #11 tokens, and talks to certification authorities. This project models its parts with the most
state, branching and arithmetic, and proves what they keep and compute. One module stands for one
component:

- `DecimalText`, `DecimalValue`, `Strtod`: the decimal parser that ignores the locale, over exact reals.
  The scanner is proved against a reader defined apart from it, and the value against the number written.
- `Pkcs11Token`, `CryptokiSession`, `CryptokiRuns`, `CryptokiLogins`: the wrapper of a PKCS #11 session. The token follows
  PKCS #11 v2.40, sections 5.2, 5.6, 5.7 and 5.11, and any of its calls may also fail for reasons of its
  own (`Device`). `BlankPadded` holds the string helpers.
- `Pkcs12Keys`, `Pkcs12Store`, `Pkcs12Session`: how private keys are generated and recognised, the bag
  list of a key file, and the session on it with the streaming signer. `Pkcs12Runs`, `Pkcs12Selection`,
  `Pkcs12Certs`, `Pkcs12Streams` and `Pkcs12Results` hold what its runs keep and its results tell. What the crypto and
  ASN.1 libraries compute is a `Library` of functions; how reading and writing the file ends is a
  parameter of the calls.
- `Der`, `Hex`, `Cmp`, `CmpOctets`: the client of a CMP server: DER writer and reader, hexadecimal text, messages.
  `DstuTables`, `KeyReaders`: two more hand-written DER readers.
- `StorageCache`: the list of tokens found, while tokens are swapped. A `View` is what the providers
  answer during one call.
- `ArchiveTimestamp`, `X690`: the input of an archive timestamp's hash, and DER as the index is written in.
- `Utf`, `StrConvert`: conversion between UTF-8 and UTF-16; `iconv` is modelled by the encodings' standards.

Code that changes state is a class or a method with loops. Each method is proved to do what a function
on plain values says, and the laws are lemmas about these functions, over all inputs or all runs.
Functions that stand for exceptions return a `Result`.

Where the code differs from its own comments or from what a caller may expect, the model follows the code:

- `strtod` takes a bare `E` as part of a number, which its comment rules out, and counts leading zeros
  among the eighteen digits it keeps, so that 0.000000000000000001 is read as zero.
- `findObjects` may report success for an incomplete list.
- The named `findFiles` looks for the application among the labels: an object that carries just what was
  asked for is found only if its label is the application's name.
- A signature announced with no octets may be asked for into a null buffer, which leaves it running.
- Closing a wrapper ignores whether its logout failed. While the token has other sessions, the user can then
  stay logged in with no wrapper left to log out.
- Three length octets limit DER lengths to 2^24. The reader of DSTU 4145 parameters knows one length octet
  behind 0x81, which limits the first element of a sequence to 255 octets of content.
- A token that moved to another slot is not found until the cache is refreshed.
- Adding a certificate computes its key id in one way, and searching for it in another: they disagree for
  DSTU 4145 keys hashed with DSTU 7564, which can then be stored twice.
- A DSTU 4145 key on an explicit curve becomes a data bag when it is read from a file, and nothing selects it,
  although its public key can be computed. Created keys are never of this kind.
- Every login appends the file's bags again. Of several keys with one id only the first can be selected.
- A DSTU 7564 key answers to its GOST 34.311 id only after the file is read again, not in the session that
  created it.
- `delete_key` may delete the key of a running signing stream. Final then still passes its guards, and
  reads the key from memory that was freed.

## Model

| member | source | states |
|---|---|---|
| DecimalText.ReadUndoesText | library/common/json/strtod-no-locale.c:123-226 | reading the text of any numeral `blanks sign I . F E sign X`, followed by anything that cannot extend it, gives that numeral back: an independent definition of what the scanner should see |
| DecimalText.ReadIsMaximal | library/common/json/strtod-no-locale.c:123-226 | for every string, what is read is a prefix of it, and the next character cannot extend the number |
| DecimalText.Characters | library/common/json/strtod-no-locale.c:123-146 | blanks and digits are those of the C locale |
| DecimalValue.ExponentScales | library/common/json/strtod-no-locale.c:211-231 | an exponent with a minus divides by its power of ten, any other multiplies |
| DecimalValue.PointScales | library/common/json/strtod-no-locale.c:142-174 | each digit behind the point counts a tenth of the one before it |
| DecimalValue.DigitAppends | library/common/json/strtod-no-locale.c:190-201 | a digit behind others is worth itself, and makes those worth ten times as much |
| DecimalValue.SignTurns | library/common/json/strtod-no-locale.c:267-270 | a minus before the number turns its sign, of what is denoted and of what is computed |
| DecimalValue.Limits | library/common/json/strtod-no-locale.c:169-248 | eighteen digits are kept, and exponents beyond 511 either way count as 511 |
| DecimalValue.SampleIsExact | library/common/json/strtod-no-locale.c:120-270 | -12.5E-5 is read as -0.000125 |
| DecimalValue.ExactIff | library/common/json/strtod-no-locale.c:142-260 | the computed value is the exact ±I.F×10^X if and only if the digits after the eighteenth are all zero and the combined exponent is within ±511 (or the kept digits are zero) |
| DecimalValue.ShortNumeralsAreExact | library/common/json/strtod-no-locale.c:169-174 | at most 18 mantissa digits and a combined exponent within ±511: the result is exact |
| DecimalValue.LongNumeralsAreTruncated | library/common/json/strtod-no-locale.c:160-174 | for any number of digits, 0 ≤ \|exact\| − \|result\| < 10^(digits before the point − 18 + X), leading zeros counted as digits as the code does |
| DecimalValue.BareMarkMovesOnlyTheEnd | library/common/json/strtod-no-locale.c:210-226 | an exponent mark without digits is consumed, its sign too, and changes the end pointer but not the value, although the comment in lines 95-96 rules the form out |
| DecimalValue.ReadsAsZeroIff | library/common/json/strtod-no-locale.c:169-204 | zero comes out for a number that is not zero if and only if at least 18 zeros lead and another digit follows them somewhere |
| DecimalValue.LeadingZerosCanLoseANumber | library/common/json/strtod-no-locale.c:169-204 | 0.000000000000000001 is read as zero |
| DecimalValue.RelativeErrorByLeadingZeros | library/common/json/strtod-no-locale.c:160-174 | with z leading zeros among the kept digits, the relative error stays below 10^(z + 1 − kept digits) |
| Strtod.PowersOf10Table | library/common/json/strtod-no-locale.c:48-58 | entry k of the table is 10^(2^k) |
| Strtod.LowestBit | library/common/json/strtod-no-locale.c:250-255 | an exponent of at most 511 is used up within the nine entries, and using the lowest bit takes exactly 2^d off what is left |
| Strtod.PowerOfTen | library/common/json/strtod-no-locale.c:250-255 | the loop of table lookups yields exactly 10^exponent for every exponent up to 511, reads only the nine entries and terminates |
| Strtod.ScanSign | library/common/json/strtod-no-locale.c:123-135 | skips exactly the leading blanks and the sign of the numeral that is there |
| Strtod.ScanMantissa | library/common/json/strtod-no-locale.c:142-153 | the count is the length of the longest mantissa, and the point is where its whole part ends |
| Strtod.KeepDigits | library/common/json/strtod-no-locale.c:164-174 | how many digits are kept and the exponent they stand for, whether or not there is a point |
| Strtod.AccumulateDigits | library/common/json/strtod-no-locale.c:181-202 | nine digits at most go into an int without overflow, and every character taken, the point skipped, is the next digit of the mantissa |
| Strtod.PackDigits | library/common/json/strtod-no-locale.c:180-203 | the two halves put together are the number the first (up to 18) digits spell |
| Strtod.ScanExponent | library/common/json/strtod-no-locale.c:210-226 | the exponent field is read whole and its value is the one written |
| Strtod.ApplyExponent | library/common/json/strtod-no-locale.c:240-260 | the result is fraction × 10^(exponent clamped to ±511); the range error is raised exactly when it is clamped |
| Strtod.StrtodNoLocale | library/common/json/strtod-no-locale.c:120-270 | for every string: no digits gives 0 with nothing consumed; otherwise the computed value of the numeral read, and the end exactly behind its text |
| CryptokiSession.Session.OpenSession | library/common/cryptoki/cryptoki-helper.cpp:300-322 | closes first and gives up if that failed; otherwise token and wrapper change exactly as opening does; nothing happens before the library is initialised |
| CryptokiSession.Session.CloseSession | library/common/cryptoki/cryptoki-helper.cpp:324-337 | logs out ignoring the outcome, closes, and resets only if the token agreed |
| CryptokiSession.Session.LoginSession | library/common/cryptoki/cryptoki-helper.cpp:339-358 | logs out first; becomes authorised exactly if the token accepts the login |
| CryptokiSession.Session.LogoutSession | library/common/cryptoki/cryptoki-helper.cpp:369-382 | stops being authorised exactly if the token accepts the logout |
| CryptokiSession.Session.Reset | library/common/cryptoki/cryptoki-helper.cpp:384-390 | the wrapper is as constructed, except for the last result |
| CryptokiSession.Session.FindObjectsSession | library/common/cryptoki/cryptoki-helper.cpp:870-899 | terminates because each round uses up a match; appends what is delivered until none comes or a call fails, and reports only how ending the search went |
| CryptokiSession.Session.FindFiles | library/common/cryptoki/cryptoki-helper.cpp:808-825 | exactly the search by class, token and private flag, into an emptied list |
| CryptokiSession.Session.FindNamedFiles | library/common/cryptoki/cryptoki-helper.cpp:827-861 | the narrower search by the attributes that are not empty |
| CryptokiSession.Session.FindKeys | library/common/cryptoki/cryptoki-helper.cpp:863-868 | the search for private keys |
| CryptokiSession.Session.SignHashSession | library/common/cryptoki/cryptoki-helper.cpp:1219-1250 | initialises, asks for the length, signs; the buffer and the operation left behind on each failing path |
| CryptokiRuns.EveryRunKeepsInvariant | library/common/cryptoki/cryptoki-helper.cpp:281-390 | over every interleaving of construction, destruction, open, close, login (officer or user), logout, search and signature by any number of wrappers on one token whose calls may fail: opened wrappers hold distinct live handles, authorised ones are opened with the token logged in, and at most one is authorised |
| CryptokiRuns.ReachableWorlds | library/common/cryptoki/cryptoki-helper.cpp:300-390 | the same from a token with no sessions: section 5.6 of PKCS #11 v2.40 |
| CryptokiLogins.ReachableWhoIff | library/common/cryptoki/cryptoki-helper.cpp:324-390 | over every run, somebody is logged in on the token if and only if some wrapper is authorised, at every step, exactly if no step closes or destroys an authorised wrapper whose logout fails while the token keeps the login |
| CryptokiLogins.LoggedInIffAuthorized | library/common/cryptoki/cryptoki-helper.cpp:324-390 | in particular while no logout fails |
| CryptokiLogins.LoginCanBeAbandoned | library/common/cryptoki/cryptoki-helper.cpp:324-337 | a run after which the user is logged in and no wrapper is left that would log out |
| CryptokiLogins.LoginResultIff | library/common/cryptoki/cryptoki-helper.cpp:345-357 | an accepted login makes this wrapper the authorised one, and nothing else does |
| CryptokiLogins.LoginSucceedsIff | library/common/cryptoki/cryptoki-helper.cpp:345-357 | when a login succeeds: open, nobody else logged in, sessions fit for an officer, and the calls work |
| CryptokiLogins.LogoutResultIff | library/common/cryptoki/cryptoki-helper.cpp:369-382 | a logout reports success if and only if the wrapper is then not authorised, and the token follows one that was |
| CryptokiLogins.CloseResultIff | library/common/cryptoki/cryptoki-helper.cpp:324-337 | a close reports success if and only if the wrapper is then closed, its session gone and no other |
| CryptokiLogins.OpenResultIff | library/common/cryptoki/cryptoki-helper.cpp:307-321 | an open that reports success leaves a new session of the kind asked for, on the slot asked for, and nobody authorised on it |
| CryptokiLogins.OpenSucceedsIff | library/common/cryptoki/cryptoki-helper.cpp:307-321 | when opening a wrapper that is not open succeeds |
| CryptokiRuns.FindQuietIff | library/common/cryptoki/cryptoki-helper.cpp:876-890 | a search leaves no operation running if and only if starting it failed or ending it succeeded |
| CryptokiRuns.SignQuietIff | library/common/cryptoki/cryptoki-helper.cpp:1228-1249 | a signature leaves no operation running if and only if a call failed, or the signature was no longer than announced and the buffer not null; an empty buffer with a null address asks for the length again |
| CryptokiRuns.SignatureCanBeLeftActive | library/common/cryptoki/cryptoki-helper.cpp:1231-1249 | a run in which every call succeeds, a signature is left active, and the next call to sign meets it |
| CryptokiRuns.OrderlyRunsStayQuiet | library/common/cryptoki/cryptoki-helper.cpp:870-1250 | over every run in which ending searches succeeds and signatures fit the announced length, an empty one into a buffer that is not null, nothing is left active between calls, failing paths included, and CKR_OPERATION_ACTIVE is never met: sections 5.2, 5.7 and 5.11 of PKCS #11 v2.40 |
| CryptokiRuns.SearchResult | library/common/cryptoki/cryptoki-helper.cpp:876-890 | a search delivers the matches that came before the first failing call, in token order, and its result tells only how it began and ended |
| CryptokiRuns.OkSearchCompleteIff | library/common/cryptoki/cryptoki-helper.cpp:880-890 | with CKR_OK returned, the list is complete if and only if no call failed before it was |
| CryptokiRuns.OkSearchCanBeIncomplete | library/common/cryptoki/cryptoki-helper.cpp:883-889 | a search that reports CKR_OK with an incomplete list: the error in the loop is overwritten |
| CryptokiRuns.DeliveredAllIff | library/common/cryptoki/cryptoki-helper.cpp:880-887 | all matches arrive if and only if every call up to the last match works |
| CryptokiRuns.MatchesMembers | library/common/cryptoki/cryptoki-helper.cpp:808-868 | the handles delivered are exactly those of visible objects that have all requested attributes |
| CryptokiRuns.MatchesInOrder | library/common/cryptoki/cryptoki-helper.cpp:879-887 | matches come in token order |
| CryptokiRuns.LabelAndApplicationExclude | library/common/cryptoki/cryptoki-helper.cpp:842-858 | with a label and a different application name, nothing is found on any token, because line 843 searches the application among the labels |
| CryptokiRuns.NamedSearchSucceedsIff | library/common/cryptoki/cryptoki-helper.cpp:827-861 | some token holds an object the search finds if and only if no label is given, or no application, or they are equal |
| CryptokiRuns.NamedMatchIff | library/common/cryptoki/cryptoki-helper.cpp:839-858 | what an object must have to match: the application as its label |
| CryptokiRuns.AskedIsFoundIff | library/common/cryptoki/cryptoki-helper.cpp:827-861 | an object carrying exactly the id, label and CKA_APPLICATION asked for is delivered, on any token, if and only if no application was named or the object's label is that name |
| CryptokiRuns.SearchByApplicationCanMiss | library/common/cryptoki/cryptoki-helper.cpp:842-858 | a token whose only object carries the application asked for, and no match |
| CryptokiRuns.SignatureExactIff | library/common/cryptoki/cryptoki-helper.cpp:1231-1248 | after CKR_OK the buffer is the signature itself if and only if its length was announced; it begins with the signature unless that went unasked for, into a null buffer |
| BlankPadded.StringFromChars | library/common/cryptoki/cryptoki-helper.cpp:1266-1287 | the result is the slice between the first and the last character above 0x20, empty if there is none |
| BlankPadded.StringToChars | library/common/cryptoki/cryptoki-helper.cpp:1289-1302 | the text cut to the field, then fill characters; nothing beyond the field changes; a null field is refused |
| BlankPadded.TrimmedIsLongest | library/common/cryptoki/cryptoki-helper.cpp:1271-1282 | no longer slice has inked ends, and no other of the same length |
| BlankPadded.TrimUndoesPadIff | library/common/cryptoki/cryptoki-helper.cpp:1266-1302 | trimming recovers blank-padded text if and only if the text fits and its ends are above 0x20 |
| BlankPadded.PaddedIs | library/common/cryptoki/cryptoki-helper.cpp:1298-1300 | the field begins with the text cut to its size, and all behind it is fill |
| Pkcs12Keys.InfoReadableIff | library/common/pkix/private-key.c:390-594 | a private key with a public key can be described as well, if and only if it is not a DSTU 4145 key on an explicit curve nor an RSA key of a modulus with eight digits of bits |
| Pkcs12Keys.GeneratedIsRecognised | library/common/pkix/private-key.c:238-304 | every key private_key_generate makes, and whose public key can be computed, is recognised when a bag takes it, for any library that reads generated keys back |
| Pkcs12Keys.GeneratesAsAsked | library/common/pkix/private-key.c:238-304 | for each mechanism, the algorithm of the key and the curve it is on unless another is asked for |
| Pkcs12Keys.GeneratesRsa | library/common/pkix/private-key.c:159-184 | RSA keys have one of six sizes, 2048 bits unless another is asked for |
| Pkcs12Keys.SampleLibraryIsLawful | library/common/pkix/private-key.c:103-157 | the promises asked of a library can be kept: one that makes keys on P-256 keeps them |
| Pkcs12Keys.ParentsAreDisjoint | library/common/pkix/oids.c:43-51 | no identifier lies under both DSTU 4145 branches |
| Pkcs12Store.FileStorage.DeleteBag | library/cm-pkcs12/src/storage/file-storage.cpp:194-206 | erasing by pointer takes exactly that bag away and keeps the order of the others |
| Pkcs12Store.FileStorage.ListBags | library/cm-pkcs12/src/storage/file-storage.cpp:208-219 | exactly the bags of one type, in order |
| Pkcs12Store.FileStorage.Decode | library/cm-pkcs12/src/storage/file-storage.cpp:137-192 | what was read is appended, even when reading fails in the end; the store opens, and may become read-only, only on success |
| Pkcs12Store.FileStorage.FindKey | library/cm-pkcs12/src/cm-pkcs12-session.cpp:205-213 | the loop finds the first stored key with the id |
| Pkcs12Store.FileStorage.DeleteCerts | library/cm-pkcs12/src/cm-pkcs12-session.cpp:504-510 | deleting while walking a snapshot removes exactly the certificates that answer to the id |
| Pkcs12Store.FirstKeyIsFirst | library/cm-pkcs12/src/cm-pkcs12-session.cpp:340-345 | of several keys with the id, the one nothing like it precedes is found |
| Pkcs12Store.FirstKeyFinds | library/cm-pkcs12/src/cm-pkcs12-session.cpp:205-215 | no key is found if and only if no stored key has the id |
| Pkcs12Store.WithoutMembers | library/cm-pkcs12/src/storage/file-storage.cpp:194-206 | what remains after a deletion is what was there and is not deleted |
| Pkcs12Store.WithoutKeepsOrder | library/cm-pkcs12/src/storage/file-storage.cpp:194-206 | deletion keeps the order of any two bags that stay |
| Pkcs12Store.AgreesIff | library/cm-pkcs12/src/storage/store-bag.cpp:356-366 | a certificate answers to the id add_certificate computes for it (library/common/pkix/private-key.c:611-616) if and only if its key is not under 1.2.804.2.1.1.1.1.3.6 or the two digests coincide |
| Pkcs12Session.SessionPkcs12Context.LoginSession | library/cm-pkcs12/src/cm-pkcs12-session.cpp:81-106 | clears the selection, then opens a new store or appends what the file holds |
| Pkcs12Session.SessionPkcs12Context.LogoutSession | library/cm-pkcs12/src/cm-pkcs12-session.cpp:108-121 | clears the selection and nothing else; the store stays open |
| Pkcs12Results.ReachableOpenIff | library/cm-pkcs12/src/cm-pkcs12-session.cpp:97-105 | over every run from opening, the store is open if and only if some login of the run succeeded, and read-only if and only if it was opened so or a successful login read a format that cannot be written (library/cm-pkcs12/src/storage/file-storage.cpp:137-192) |
| Pkcs12Results.LoginResult | library/cm-pkcs12/src/cm-pkcs12-session.cpp:81-121 | the result is that of reading the file; whatever it is, what was read is appended and nothing is selected; without a password nothing happens |
| Pkcs12Session.SessionPkcs12Context.SelectSessionKey | library/cm-pkcs12/src/cm-pkcs12-session.cpp:187-219 | the first key with the id is selected, none if there is none; refused before login |
| Pkcs12Session.SessionPkcs12Context.CreateSessionKey | library/cm-pkcs12/src/cm-pkcs12-session.cpp:221-319 | request checks, generation and the check of the key id in order; then the new bag is appended and selected before the file is written, and stays when writing fails; refused before login and when read-only |
| Pkcs12Session.SessionPkcs12Context.DeleteSessionKey | library/cm-pkcs12/src/cm-pkcs12-session.cpp:321-369 | the first key with the id goes, with the related certificates when asked; a selection of it is cleared; a signing stream is not touched, even when the key is its own |
| Pkcs12Session.SessionPkcs12Context.AddSessionCertificate | library/cm-pkcs12/src/cm-pkcs12-session.cpp:432-484 | appended unless some stored certificate answers to its id, which is success too |
| Pkcs12Session.SessionPkcs12Context.DeleteSessionCertificate | library/cm-pkcs12/src/cm-pkcs12-session.cpp:486-516 | all certificates that answer to the id go; not found is an error and changes nothing |
| Pkcs12Session.SessionPkcs12Context.SignInitKey | library/cm-pkcs12/src/cm-pkcs12-key.cpp:223-261 | the guards return before the running stream is dropped; a failed check leaves it idle; success starts a hash and remembers the key |
| Pkcs12Session.SessionPkcs12Context.SignUpdateKey | library/cm-pkcs12/src/cm-pkcs12-key.cpp:263-283 | the data is fed to the hash if the store is open, some key is selected and a stream runs |
| Pkcs12Session.SessionPkcs12Context.SignFinalKey | library/cm-pkcs12/src/cm-pkcs12-key.cpp:285-316 | signs the hash with the key remembered at init, or with what is in its memory if it was freed, then is idle whatever the outcome |
| Pkcs12Session.SessionPkcs12Context.ResetSignLong | library/cm-pkcs12/src/cm-pkcs12-ctx.cpp:53-62 | every field of the stream returns to its initial value |
| Pkcs12Results.SelectKeyResult | library/cm-pkcs12/src/cm-pkcs12-session.cpp:194-218 | each result and what it means for the selection: a failed search selects nothing, a refusal changes nothing |
| Pkcs12Results.CreateKeyResult | library/cm-pkcs12/src/cm-pkcs12-session.cpp:229-255 | why creating is refused, in which order, and that a refusal changes nothing |
| Pkcs12Results.CreatedIsStored | library/cm-pkcs12/src/cm-pkcs12-session.cpp:305-318 | a key that is encrypted is stored last and selected, under the id written beside it, whether or not the file can be written |
| Pkcs12Results.DeleteKeyResult | library/cm-pkcs12/src/cm-pkcs12-session.cpp:328-368 | why deleting is refused, in which order; a selection goes exactly with its key |
| Pkcs12Results.AddCertificateResult | library/cm-pkcs12/src/cm-pkcs12-session.cpp:438-484 | why adding is refused, in which order; afterwards the certificate is stored last, or one was that answers to its id |
| Pkcs12Results.DeleteCertificateResult | library/cm-pkcs12/src/cm-pkcs12-session.cpp:492-515 | why deleting is refused, in which order |
| Pkcs12Results.CertAnswersTo | library/cm-pkcs12/src/storage/store-bag.cpp:356-366 | a certificate with a GOST 34.311 key answers to two ids, any other to one |
| Pkcs12Results.SignResult | library/cm-pkcs12/src/cm-pkcs12-key.cpp:190-221 | why signing is refused, in which order; a success has for every hash the signature that hash alone gets |
| Pkcs12Results.SignInitResult | library/cm-pkcs12/src/cm-pkcs12-key.cpp:232-260 | why init is refused, in which order; behind the guards a failure leaves the stream idle, success leaves it empty with the selected key |
| Pkcs12Results.StreamResult | library/cm-pkcs12/src/cm-pkcs12-key.cpp:271-315 | why update and final are refused, in which order, and that a refusal changes nothing |
| Pkcs12Runs.ReachableSessions | library/cm-pkcs12/src/cm-pkcs12-ctx.cpp:38-62 | in every reachable state a stream is wholly idle, or has both its key and its hash |
| Pkcs12Runs.RunKeepsInvariant | library/cm-pkcs12/src/cm-pkcs12-session.cpp:81-516 | every operation, whatever the file, the library and the disk answer, keeps: bags at distinct addresses, the selection stored and never a certificate, streams whole |
| Pkcs12Selection.StepSelectsKeyIff | library/cm-pkcs12/src/cm-pkcs12-session.cpp:269-315 | what is selected remains a KEY bag if and only if no key is created that is not recognised afterwards |
| Pkcs12Selection.MadeIsRecognised | library/cm-pkcs12/src/cm-pkcs12-session.cpp:251-277 | the check of lines 258-271 lets no key pass that is not recognised |
| Pkcs12Selection.ReachableSelection | library/cm-pkcs12/src/cm-pkcs12-session.cpp:81-369 | in every reachable state the selection is null or a KEY bag in the store, for any library that keeps its promises |
| Pkcs12Selection.SelectsIff | library/cm-pkcs12/src/cm-pkcs12-session.cpp:205-215 | in any open session, an id selects a given bag if and only if it is a key with the id and no key before it has the id |
| Pkcs12Selection.FileKeySelectableIff | library/cm-pkcs12/src/storage/store-bag.cpp:266-295 | a key of any file, read into any session by a login that succeeds, is selected by an id if and only if it is recognised, has the id, and no key before it has |
| Pkcs12Selection.OwnIdSelectsIff | library/cm-pkcs12/src/storage/store-bag.cpp:266-295 | a key with a public key and its digest is selected by its own id if and only if it is not on an explicit DSTU 4145 curve, its modulus is not absurdly long, and no key before it has the id |
| Pkcs12Selection.UnrecognisedIsNeverSelected | library/cm-pkcs12/src/storage/store-bag.cpp:266-295 | the bag of a key that is not recognised is data, and no later run of any operations selects it |
| Pkcs12Selection.ExplicitCurveIsNeverSelected | library/cm-pkcs12/src/storage/store-bag.cpp:274-294 | a DSTU 4145 key on an explicit curve, in any file, becomes a data bag that no later run selects, although its public key can be computed |
| Pkcs12Selection.CopyIsNeverSelected | library/cm-pkcs12/src/cm-pkcs12-session.cpp:205-215 | a later key with the ids of an earlier one is selected by no id |
| Pkcs12Selection.SecondLoginHidesCopies | library/cm-pkcs12/src/cm-pkcs12-session.cpp:81-106 | a second login appends the file's keys again, and no id selects these |
| Pkcs12Selection.RecognisedCopyIsNotSelected | library/cm-pkcs12/src/cm-pkcs12-session.cpp:81-106 | a key that is recognised and has an id, and that no id selects: the second copy after two logins |
| Pkcs12Selection.MadeKeyIsFoundAgain | library/cm-pkcs12/src/cm-pkcs12-session.cpp:257-300 | the id given by create_key selects a key after the file is read again: that key, if and only if none before it has the id |
| Pkcs12Selection.CreatedIdsIff | library/cm-pkcs12/src/cm-pkcs12-session.cpp:256-300 | what selects a new key in the creating session selects it after reloading; its own id does so in the creating session if and only if the mechanism is no DSTU 7564 one or the digests agree |
| Pkcs12Runs.LockedRunsKeepBags | library/cm-pkcs12/src/cm-pkcs12-session.cpp:187-516 | until a login, no run of operations on an unopened or read-only session changes the bag list |
| Pkcs12Runs.ReadOnlyRunsOnlyAppend | library/cm-pkcs12/src/cm-pkcs12-session.cpp:81-516 | in a read-only session even logins only append |
| Pkcs12Runs.DeleteKeyExactly | library/cm-pkcs12/src/cm-pkcs12-session.cpp:336-364 | exactly the first key with the id goes, and when asked every certificate that answers to it; all else stays, in order |
| Pkcs12Runs.DeleteCertificateExactly | library/cm-pkcs12/src/cm-pkcs12-session.cpp:500-512 | exactly the certificates that answer to the id go, none is left, all else stays in order |
| Pkcs12Certs.AddTwiceIff | library/cm-pkcs12/src/cm-pkcs12-session.cpp:450-462 | adding a certificate twice equals adding it once if and only if the first add appended nothing or the search finds the certificate again, which fails for keys under 1.2.804.2.1.1.1.1.3.6 with differing digests |
| Pkcs12Certs.AddTwiceCanStoreTwice | library/cm-pkcs12/src/cm-pkcs12-session.cpp:450-480 | a session in which the same certificate is stored twice |
| Pkcs12Certs.StepKeepsDistinctIff | library/cm-pkcs12/src/cm-pkcs12-session.cpp:450-480 | from distinct certificate ids, a call keeps them distinct if and only if it does not append a certificate under an id that a stored one has and is not found by, nor reads a file that repeats an id |
| Pkcs12Certs.ReachableDistinctIff | library/cm-pkcs12/src/cm-pkcs12-session.cpp:81-516 | over every run from opening, no two certificates have one key id at any step if and only if no step adds such a duplicate |
| Pkcs12Certs.RunKeepsCertIds | library/cm-pkcs12/src/cm-pkcs12-session.cpp:321-516 | in particular, if all added certificates are found again and logins bring none, no two have one key id |
| Pkcs12Streams.ActiveStaysStoredIff | library/cm-pkcs12/src/cm-pkcs12-session.cpp:347-362 | the key of a running stream stays stored, and stays the stream's key, until a delete_key hits it, and exactly then it goes |
| Pkcs12Streams.ReachableLiveIff | library/cm-pkcs12/src/cm-pkcs12-session.cpp:321-369 | over every run from opening, the key a stream remembers is stored at every step if and only if no step deletes it |
| Pkcs12Streams.DeleteCanFreeStreamKey | library/cm-pkcs12/src/cm-pkcs12-key.cpp:285-316 | login, two keys, a stream with the first, which is then deleted: final passes its guards and signs with whatever stands where the key was |
| Pkcs12Streams.StreamRun | library/cm-pkcs12/src/cm-pkcs12-key.cpp:263-283 | across any operations that neither restart the stream nor delete its key, the hash has taken in exactly the accepted data, and nothing else about the stream changes |
| Pkcs12Streams.StreamingRefinesOneShot | library/cm-pkcs12/src/cm-pkcs12-key.cpp:190-316 | init, any operations that neither restart the stream nor delete its key, updates among them, then final: the signature cm_key_sign makes of the hash of all accepted data with the key selected at init, whatever is selected meanwhile, provided some key is selected at the end; afterwards the stream is idle, and without a selected key it is unchanged |
| Pkcs12Streams.NothingIsLost | library/cm-pkcs12/src/cm-pkcs12-key.cpp:263-283 | while some key is selected throughout, all data sent is accepted |
| Der.DerTLV | integration/Net/Uapki.Cmp.cs:210-218 | tag, length octets and value, each at its place |
| Der.ReadLength | integration/Net/Uapki.Cmp.cs:242-255 | the loop shifts octets into a 32-bit register, wrapping as the code does, and stops where data end |
| Der.LengthReadBack | integration/Net/Uapki.Cmp.cs:184-255 | at any position in any data the reader consumes what the writer wrote and returns the length modulo 2^24 |
| Der.ReadLengthUndoesIff | integration/Net/Uapki.Cmp.cs:184-255 | ReadLength undoes DerLength if and only if the length is below 2^24 (the comment in line 200 calls three octets enough) |
| Der.LongLengthWraps | integration/Net/Uapki.Cmp.cs:242-255 | however many length octets there are, the result is the 32-bit register they were shifted into |
| Der.DerLengthIsShortest | integration/Net/Uapki.Cmp.cs:184-208 | nothing the reader takes for the same length is shorter: section 10.1 of X.690 |
| Der.DerLengthIsPrefixFree | integration/Net/Uapki.Cmp.cs:184-208 | no length encoding is the start of another |
| Der.TlvReadBack | integration/Net/Uapki.Cmp.cs:210-255 | wherever an encoding starts, tag and length are read and the reader stops at the value |
| Der.TlvIsPrefixFree | integration/Net/Uapki.Cmp.cs:210-218 | encodings of bounded size with one tag can be cut off the front of any data in one way only |
| Der.LengthExamples | integration/Net/Uapki.Cmp.cs:184-208 | the octets of the lengths at which the form changes, and of 0x1234 and 0x123456 |
| Cmp.BuildRequest | integration/Net/Uapki.Cmp.cs:86-133 | the request is SEQUENCE{OID, [0]{OCTET STRING payload}} with the payload's fields in order |
| Cmp.ParseResponse | integration/Net/Uapki.Cmp.cs:136-182 | the response or the error, step by step, with 32-bit positions and the outer lengths ignored |
| Cmp.ParseUndoesResponseIff | integration/Net/Uapki.Cmp.cs:136-262 | a response of any type, status and chain is recovered, an empty chain as none, if and only if its octet string is shorter than 2^24, whatever the outer lengths become |
| Cmp.Int32ReadBack | integration/Net/Uapki.Cmp.cs:257-262 | a 32-bit integer is read back as written, at any position |
| Cmp.CmpRequest | integration/Net/Uapki.Cmp.cs:292-307 | the loop prepares one to four identifiers in order, or reports the first error |
| Cmp.KeyIdFillsSlotIff | integration/Net/Uapki.Cmp.cs:299-305 | an identifier of 40 or 64 characters fills a 32-byte slot, with its bytes and then zeros, if and only if all its characters are hexadecimal |
| Cmp.RequestReadsBack | integration/Net/Uapki.Cmp.cs:86-133 | for one to four plain identifiers the payload has 152 bytes, and the response reader recovers type 13, status 0, the count and all four slots |
| CmpOctets.MessageOctets | integration/Net/Uapki.Cmp.cs:122-132 | every octet around the 152 of a request's payload |
| CmpOctets.IdentifierSpells | integration/Net/Uapki.Cmp.cs:123-130 | the identifier's octets spell 1.2.840.113549.1.7.1 |
| CmpOctets.FlagsReadBack | integration/Net/Uapki.Cmp.cs:110-117 | the three flags of any request read back from behind its slots |
| CmpOctets.RequestBegins | integration/Net/Uapki.Cmp.cs:91-98 | type 13, status 0 and the count in octets, and no flag set |
| CmpOctets.Int32IsLittleEndian | integration/Net/Uapki.Cmp.cs:257-262 | a 32-bit integer is its four octets, the lowest first |
| CmpOctets.ResponseOctets | integration/Net/Uapki.Cmp.cs:165-181 | type, status and chain of a response, in octets |
| CmpOctets.ParseOkPlaces | integration/Net/Uapki.Cmp.cs:141-182 | a response is read only with each of the four tags in its place, and is then what the octet string holds |
| Hex.ToHexString | integration/Net/Polyfil/Hex.cs:13-27 | two upper-case digits a byte, high nibble first |
| Hex.FromHexString | integration/Net/Polyfil/Hex.cs:36-54 | blanks and one 0x prefix stripped, then bytes or the error for an odd length or a wrong character |
| Hex.FromHexUndoesToHex | integration/Net/Polyfil/Hex.cs:13-54 | every byte array is recovered |
| Hex.ToHexUndoesFromHex | integration/Net/Polyfil/Hex.cs:13-54 | any accepted text is recovered in upper case, without blanks and prefix |
| Hex.HexIsNotStripped | integration/Net/Polyfil/Hex.cs:38-41 | plain hexadecimal text loses nothing to trimming or to the prefix rule |
| Hex.BlanksAndPrefixAreSkipped | integration/Net/Polyfil/Hex.cs:38-41 | blanks around digits and one prefix before them make no difference to what is read |
| Hex.WhiteSpaceIff | integration/Net/Polyfil/Hex.cs:38-38 | the twenty-five blanks that are trimmed |
| KeyReaders.PublicKeyBits | integration/Net/Uapki.Cert.cs:156-198 | all branches of the getter, with the wrap-around of an int and every place where it leaves the array |
| KeyReaders.PointBitsIff | integration/Net/Uapki.Cert.cs:163-169 | an elliptic curve point has eight times the octets of one coordinate, in both forms, if and only if the product stays in an int |
| KeyReaders.RsaBitsIff | integration/Net/Uapki.Cert.cs:172-195 | for a SEQUENCE beginning with an INTEGER of any size, eight times its magnitude octets if and only if the content has fewer than 65536 octets, whatever follows |
| KeyReaders.MagnitudeIsLeast | integration/Net/Uapki.Cert.cs:192-193 | the magnitude octets are the fewest that hold the integer |
| KeyReaders.TakeFirstItem | integration/Net/Uapki.DstuParameters.cs:348-359 | the element is cut out by its own length, or the read leaves the array |
| KeyReaders.GetKeyParameterByValue | integration/Net/Uapki.DstuParameters.cs:335-379 | object identifiers are compared whole, sequences by their first element, all else is refused |
| KeyReaders.FirstElementIff | integration/Net/Uapki.DstuParameters.cs:348-359 | the first element of a sequence is cut out whole, whatever follows it, if and only if it has fewer than 256 content octets |
| KeyReaders.FirstElementCut | integration/Net/Uapki.DstuParameters.cs:348-359 | what is cut out instead, or that the copy leaves the array |
| KeyReaders.ElementParameterIff | integration/Net/Uapki.DstuParameters.cs:361-375 | an element is a field if and only if it is one of that field's three encodings, so no encoding names two fields |
| KeyReaders.SequenceNamesField | integration/Net/Uapki.DstuParameters.cs:346-375 | SEQUENCE{element, anything} is a field if and only if the element is one of its encodings, however long the element is |
| KeyReaders.IdentifierNamesField | integration/Net/Uapki.DstuParameters.cs:337-344 | a bare identifier names exactly the field it names inside a sequence |
| KeyReaders.ElementStatesField | integration/Net/Uapki.DstuParameters.cs:361-375 | what an element is taken for is the field whose degree it states, or whose place its identifier has |
| StorageCache.CmCryptoki.DetectStorages | library/cm-pkcs11/src/cm-cryptoki.cpp:136-167 | the list is cleared and refilled, ids are set, and the number of initialised providers is returned |
| StorageCache.CmCryptoki.FoundStorage | library/cm-pkcs11/src/cm-cryptoki.cpp:169-181 | the first entry with the serial number |
| StorageCache.CmCryptoki.ListStorages | library/cm-pkcs11/src/cm-cryptoki.cpp:183-207 | lists what is present now, and forgets the cache even for a call that asks for nothing |
| StorageCache.CmCryptoki.StorageInfo | library/cm-pkcs11/src/cm-cryptoki.cpp:209-241 | the information comes from the token found, or the error |
| StorageCache.CmCryptoki.Open | library/cm-pkcs11/src/cm-cryptoki.cpp:243-303 | opens the slot found, or the error; an unknown mode touches nothing |
| StorageCache.DetectsExactly | library/cm-pkcs11/src/cm-cryptoki.cpp:136-167 | an entry is listed if and only if some slot of an initialised provider holds that readable token with a serial number |
| StorageCache.ScanSlotsInOrder | library/cm-pkcs11/src/cm-cryptoki.cpp:149-163 | within a provider, entries follow the slot list |
| StorageCache.DetectsInProviderOrder | library/cm-pkcs11/src/cm-cryptoki.cpp:141-164 | entries of an earlier provider come first |
| StorageCache.LocateIsSound | library/cm-pkcs11/src/cm-cryptoki.cpp:266-282 | whatever slot is used reported the requested serial number during that very call, however tokens were swapped before |
| StorageCache.LocateSucceedsIff | library/cm-pkcs11/src/cm-cryptoki.cpp:266-282 | a remembered token is found if and only if it still reports from its remembered slot; another one if and only if it is present |
| StorageCache.MovedTokenIsMissed | library/cm-pkcs11/src/cm-cryptoki.cpp:269-275 | a token that moved to another slot is reported as an error although it is present; detecting again finds it |
| StorageCache.EveryRunKeepsIds | library/cm-pkcs11/src/cm-cryptoki.cpp:155-160 | over every run of calls under arbitrary swaps, a provider id never changes once set, and unknown providers have distinct ids |
| StorageCache.ListedIff | library/cm-pkcs11/src/cm-cryptoki.cpp:193-204 | a token is listed if and only if some slot of an initialised provider reports it |
| StorageCache.InitializedIff | library/cm-pkcs11/src/cm-cryptoki.cpp:140-166 | no library is loaded exactly if no provider is initialised |
| StorageCache.KindIff | library/cm-pkcs11/src/cm-cryptoki.cpp:353-395 | a token is of the first kind its maker or model belongs to, of none if they belong to none |
| StorageCache.LocateResult | library/cm-pkcs11/src/cm-cryptoki.cpp:266-282 | what is found is remembered as it was reported in this call; a failure tells why and changes nothing but a refreshed list |
| ArchiveTimestamp.ArchiveTs3Helper.CalcHash | library/common/pkix/archive-timestamp-helper.cpp:187-238 | hashes contentType, hashContent, signerInfo and the index, each part required; earlier results stay on failure |
| ArchiveTimestamp.ConcatParts | library/common/pkix/archive-timestamp-helper.cpp:212-230 | the four copies at moving offsets tile the buffer |
| ArchiveTimestamp.ArchiveTs3Helper.AddCertificate | library/common/pkix/archive-timestamp-helper.cpp:166-171 | the digest is appended to the certificate list; absent data is success and nothing is added |
| ArchiveTimestamp.ArchiveTs3Helper.AddCrl | library/common/pkix/archive-timestamp-helper.cpp:173-178 | the same for revocation lists |
| ArchiveTimestamp.ArchiveTs3Helper.AddUnsignedAttr | library/common/pkix/archive-timestamp-helper.cpp:180-185 | the same for unsigned attributes |
| ArchiveTimestamp.RunCollects | library/common/pkix/archive-timestamp-helper.cpp:82-255 | after any run of adds, contents, signers and hashes, each list is the digests of what was added to it, in order, failed and absent ones left out, and content and signer are the last accepted |
| ArchiveTimestamp.SetThenHashed | library/common/pkix/archive-timestamp-helper.cpp:82-118 | the content and signer that are set are what the hashed bytes begin with |
| ArchiveTimestamp.AddResult | library/common/pkix/archive-timestamp-helper.cpp:166-255 | data that is there is digested onto the end of the list of its kind, and no other list changes |
| ArchiveTimestamp.InterleavingIsIrrelevant | library/common/pkix/archive-timestamp-helper.cpp:82-255 | runs with the same order within each list and the same last content and signer hash the same bytes, however the calls interleave and whatever was hashed on the way |
| ArchiveTimestamp.CalcSucceedsIff | library/common/pkix/archive-timestamp-helper.cpp:187-238 | calcHash succeeds if and only if all parts are there and the libraries do their work, and its value is the hash of just those bytes |
| ArchiveTimestamp.HashedInOrder | library/common/pkix/archive-timestamp-helper.cpp:212-230 | what is hashed is content type, content, signer and encoded index, in this order: section 5.5.3 of ETSI EN 319 122-1 |
| ArchiveTimestamp.HashedIff | library/common/pkix/archive-timestamp-helper.cpp:193-230 | which parts and results must be there for anything to be hashed |
| X690.EncodingIsPrefixFree | library/common/pkix/attribute-helper.cpp:486-559 | a law of the encoding the cited calls to the ASN.1 runtime are assumed to write: none is the start of another, for any size that fits in memory; sections 8.1 and 10.1 of X.690 |
| ArchiveTimestamp.DerIndexInjective | library/common/pkix/archive-timestamp-helper.cpp:193-205 | the encoded index determines all three lists: no hash can move from one list to another |
| ArchiveTimestamp.IndexInOrder | library/common/pkix/archive-timestamp-helper.cpp:194-205 | the index lists certificates, then revocation lists, then attributes, behind the algorithm unless it is SHA-256 |
| ArchiveTimestamp.SameInputIffSameLists | library/common/pkix/archive-timestamp-helper.cpp:187-234 | for the same signed data, the bytes calcHash hashes are equal if and only if all three lists are, given that the index builder writes DER: section 5.5.3 of ETSI EN 319 122-1 |
| ArchiveTimestamp.HashedDeterminesParts | library/common/pkix/archive-timestamp-helper.cpp:187-234 | with the content type and signer in DER and content digests of one size, the bytes calcHash hashes are equal if and only if all parts they are made of are |
| Utf.FrontOfEncoded | library/uapki-1c/str-convert.cpp:71-94 | an encoded character is read back from the front of any data, in both encodings: section 3 of RFC 3629, section 2 of RFC 2781 |
| Utf.EncodedOfFront | library/uapki-1c/str-convert.cpp:71-94 | a character is only read from its one encoding: no overlong form, no lone surrogate |
| Utf.DecodeUndoesEncode | library/uapki-1c/str-convert.cpp:71-94 | decoding undoes encoding for every text |
| Utf.EncodeUndoesDecode | library/uapki-1c/str-convert.cpp:71-94 | encoding undoes decoding for every well-formed input |
| Utf.OutputBound | library/uapki-1c/str-convert.cpp:78-80 | no text takes more than twice the octets in the other encoding |
| Utf.Examples | library/uapki-1c/str-convert.cpp:71-94 | the octets of the characters RFC 3629 and RFC 2781 show, and of the first and last of every length |
| Utf.Utf8KeepsOrder | library/uapki-1c/str-convert.cpp:71-94 | UTF-8 keeps the order of characters: section 1 of RFC 3629 |
| Utf.UnitsOf | library/uapki-1c/str-convert.cpp:71-94 | a character of the basic plane is its own unit, any other is made of its surrogates: section 2 of RFC 2781 |
| StrConvert.Iconv | library/uapki-1c/str-convert.cpp:83-89 | one call succeeds if and only if the input is well formed and its conversion fits the buffer, and then the buffer begins with the conversion |
| StrConvert.IconvConvert | library/uapki-1c/str-convert.cpp:71-94 | the result is the whole conversion for well-formed input and empty otherwise; want of room never occurs |
| StrConvert.Utf8ToUtf16 | library/uapki-1c/str-convert.cpp:96-104 | the units of the converted text |
| StrConvert.Utf16ToUtf8 | library/uapki-1c/str-convert.cpp:106-109 | the octets of the converted text, empty for a null input |
| StrConvert.NeverRunsShort | library/uapki-1c/str-convert.cpp:78-80 | the conversion of n octets never needs more than 2n |
| StrConvert.AsciiDoubles | library/uapki-1c/str-convert.cpp:78-79 | n octets of ASCII need exactly 2n, so the factor is the least possible |
| StrConvert.Utf8RoundTripIff | library/uapki-1c/str-convert.cpp:96-109 | UTF-8 survives the way to UTF-16 and back if and only if it is well formed |
| StrConvert.Utf16RoundTripIff | library/uapki-1c/str-convert.cpp:96-109 | UTF-16 survives the way to UTF-8 and back if and only if its surrogates pair up |
| StrConvert.MalformedIsEmpty | library/uapki-1c/str-convert.cpp:91-109 | malformed input becomes nothing at all, in either direction |
| StrConvert.PairedIff | library/uapki-1c/str-convert.cpp:106-109 | UTF-16LE memory decodes if and only if every high surrogate is followed by a low one and every low one follows a high one |
| StrConvert.ToUtf16InOrder | library/uapki-1c/str-convert.cpp:96-104 | texts one after another become their units one after another |

## Left out

- Strtod.StrtodNoLocale: needs the exponent field and the string length together below 2^31, because beyond that the code's int overflows; rounding to double, the `errno` variable itself and locale tables are not modelled (the range error is a result).
- Strtod.AccumulateDigits: stands for two loops that differ only in the accumulator.
- Pkcs11Token.Token: a failing call changes nothing but a signing operation, a failed `C_OpenSession` writes no handle, and no session is given the handle −1 that a closed wrapper holds; other behaviour of devices that break the standard is not modelled.
- CryptokiRuns.EveryRunKeepsInvariant: leaves out `closeAllSessions`, `finalize` and context-specific login, which change the token behind a session.
- CryptokiRuns.OrderlyRunsStayQuiet: assumes that ending a search succeeds and signatures fit what was announced; FindQuietIff and SignQuietIff say that these are the exact conditions for one call.
- Pkcs12Session.SessionPkcs12Context.SignFinalKey: reading a freed key yields arbitrary octets here; that a real read may also end the program is not modelled.
- Pkcs12Session.SessionPkcs12Context.CreateSessionKey: encoding the attributes and encrypting the bag are one outcome, `encoded`.
- Pkcs12Selection.ReachableSelection: takes the libraries to read generated keys back, to compute SHA-1 and GOST 34.311 digests of any data, none of them empty, and to make RSA moduli of the size asked for.
- Pkcs12Session.SessionPkcs12Context.SignUpdateKey: takes updating a hash to succeed and a running hash to equal the hash of the data put together, as the hash library promises.
- Pkcs12Certs.RunKeepsCertIds: leaves out logins that bring certificates; ReachableDistinctIff covers them.
- Pkcs12Store.FileStorage.Decode: the formats themselves (PKCS #12, JKS, IIT, PKCS #8) are not modelled; any outcome and any keys, certificates and data are allowed. Bags are values with an address that is never used again, in place of pointers.
- Cmp.BuildRequest: needs the message to fit an array of 2^31 - 1 elements.
- StorageCache.CmCryptoki.Open: loading providers and the session behind the opened slot are left out; whether that session opens is a parameter.
- ArchiveTimestamp.ArchiveTs3Helper.CalcHash: calls the index encoder as an unknown function, which SameInputIffSameLists takes to write DER for whatever fits in a 64-bit memory.
- ArchiveTimestamp.RunCollects: runs begin after `init` has chosen the algorithm, which the code does once.
- ArchiveTimestamp.ArchiveTs3Helper.SetSignerInfo: takes the signer information as encoded; splitting a set of attributes into single ones before they are added is left out.
- StrConvert.Iconv: models a strict converter without byte-order marks; how much of the output is written on failure is not stated, because the caller discards it. The Windows branch calls the system instead and is left out.
- Listing keys and certificates as JSON, key information, password changes, key agreement and wrapping in PKCS #12 sessions: they read the same bags and would add easy members.
- Object creation, attributes, key generation and PINs in PKCS #11 sessions: single calls that are passed on.
- Sending requests and racing servers in the CMP client: network.
- Dynamic loading, native glue for other languages, allocation failures, and the cryptographic primitives.
- Tables of identifiers and error texts other than the DSTU 4145 encodings that are recognised.
