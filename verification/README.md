# PiqSavi: a verified model

A Dafny model of the hard logic of the PiqSavi backend, with proofs over all inputs, all
faults and all runs. Source files are cited by path and line.

## What is modelled

- **Accounts** (`Account*.dfy`; `app/auth/service.py`, `app/user/memory.py`). Registration,
  login, sessions, password reset, email verification and email change, over users, sessions
  and one-time tokens. `AccountOperations` gives every call as a function from state to state
  and outcome; `AccountRepositories` and `AccountService` are the mutable objects, each method
  proved to do what its function says; `AccountSafety`, `AccountTheorems`, `AccountFlows`,
  `AccountRequests`, `AccountRules`, `AccountRetries` and `AccountTickets` prove what holds
  over calls and runs.
- **Baseline gates** (`BaselineGates.dfy`): the IaC, SAST, secret and container comparators,
  two greedy and two counting, as answers to one multiset question.
- **Terraform scope** (`TerraformScope.dfy`): the reachability worklist of the IaC gate and
  the scope check around it.
- **Public names** (`Substrings.dfy`, `PublicBrand.dfy`): the chained replacements.
- **Credential names** (`CredentialNames.dfy`, `CredentialVerdicts.dfy`): the look-ahead
  tokenizer of the secret scan, and the verdicts on the two spellings of a name.
- **Origins** (`CookieOrigin.dfy`): parsing and serializing origins, section 6.2 of RFC 6454,
  the verdict on a request and the middleware around it.
- **Password text** (`Numerals.dfy`, `PasswordText.dfy`): the stored form around PBKDF2 of
  section 5.2 of RFC 8018.
- **Snippets and pins** (`SnippetFingerprint.dfy`, `PinFile.dfy`): line-number independence
  of SAST fingerprints; the pin file, with names as in "Normalized Names" of PEP 503, and the
  closure checks of the dependency gate.
- **Request pacer** (`RequestPacer.dfy`): cadence and counters of the catalog transport.
- **Analytics** (`Analytics*.dfy`, `TrackingCookie.dfy`): validators, the signed consent
  cookie, the insert-once store, deterministic event ids, and the research and refinement
  emitters.
- **Learning** (`Learning.dfy`): the windows, funnel, rates and retention over stored events.

`Wrappers.dfy`, `Text.dfy` and `Gates.dfy` hold what several models share.

## How it is modelled

- A service call is a sequence of repository calls that commit one by one. A fault names the
  repository call that raises (the sending of the old-address notice included); a bulk write
  may by then have written any of its rows. The states left under the different faults are
  the states that a call passes through. `save` is atomic. Calls do not interleave.
- Fresh identifiers and tokens are fresh. Token digests, password verification, the key
  derivation, the subject digest and name-based UUIDs are unknown functions; injectivity or
  the form of their results is assumed only where a statement says so. The digest of an event
  is the tuple of the fields it covers.
- A service call reads the clock once. The pacer's clock never goes back, and its sleeper
  takes at least as long as it is asked to; both are otherwise arbitrary.
- Text is ASCII, with the blanks of `str.isspace` and the line ends of `str.splitlines` in
  that range. Pattern matching follows the regular expressions, a final newline before `$`
  included where the code does not strip first.
- A bracketed host is whatever a predicate accepts. The theorems on trusted origins ask of it
  only that a host with a colon and without `%` stays accepted when it is lower-cased and
  loses trailing dots. `LibraryLiteralsAreStable` shows this of the check that `urlsplit`
  makes from Python 3.12 on, future-version addresses included, for any reading of IPv6
  addresses that without a scope consist of hexadecimal digits, colons and dots, do not end
  in a dot and forget case.
- JSON values come decoded; numbers that are not integers, arrays and objects are one kind.

## Where the code is not what its documentation or a first reading says

- The email-change docstring promises a fail-closed order, and the code keeps it. The
  password reset saves the password before it revokes sessions and is not fail-closed:
  `ResetLeavesSessionLiveExactlyWhen` says exactly when an old session survives, and
  `ResetCanLeaveASessionLive` shows one.
- Nothing but its own confirmation and its expiry ends a reset ticket: not another reset of
  the user, and not the move of the address it was mailed to:
  `ResetTicketConfirmsExactlyWhen`.
- "PersonalDeal Score" becomes "PersonalPiqScore", a name no rule intends: `MixedNameExactlyWhen`.
- camelCase and snake_case spellings differ in their segments when one-letter words stand
  next to each other, `SpellingsAgreeExactlyWhen`, and then a credential name can pass in
  snake_case: `VerdictsDifferExactlyWhen`, `SpellingsCanDiffer`.
- A trusted origin that is longer than 200 characters, holds a NUL, or keeps a bracket open is
  refused by the request parser although it is configured: `TrustedIsAllowedExactlyWhen`,
  with `LongOriginIsRefused` and `OpenBracketIsRefused`.
- A host that consists of dots has no serialization; such a header is not allowed, but its
  reason is that of an accepted one: `SpellingIsAllowedExactlyWhen`.
- An issue text of several lines can make the fingerprint of other source: `OneLineIssuesAreTold`.
- Names with a leading dash are printed to the pin file but refused on reading:
  `RoundTripExactlyWhen`, `DashedPinIsRefused`.
- Identity parts with newlines can share an event id with other parts: `MaterialIsInjective`.

## Model

| member | source | states |
|---|---|---|
| `AccountTheorems.EmailMovesOnlyBehindRevocation` | app/auth/service.py:597-618 | In every state that a confirmation passes through, whichever repository call raises: a user's stored address is the old one, or every session that user had is revoked; only the record's owner is touched. |
| `AccountTheorems.LiveSessionMeansSameEmail` | app/auth/service.py:347-385 | Over any run of calls and faults, a session that is still unrevoked at the end proves that its user's address has not moved since. (Also lines 597-618.) |
| `AccountTheorems.RetryConverges` | app/auth/service.py:595-619 | A confirmation that fails at any call, repeated undisturbed with the same unexpired token, ends with the rows of the uninterrupted call, sessions revoked, token consumed, and at most one old-address notice; the second call reports success exactly when the first had not consumed the token. |
| `AccountTheorems.ConfirmSucceedsExactlyWhen` | app/auth/service.py:573-594 | Without faults `confirm_email_change` succeeds if and only if the token names a live record of an active user and nobody else has the address. |
| `AccountTheorems.ConfirmWritesOnlyWhenConfirmable` | app/auth/service.py:573-594 | The call writes only when the stored state allows it and no read raises; in every other case the state is unchanged and the call does not succeed. |
| `AccountTheorems.ApplyOutcome` | app/auth/service.py:595-619 | What the writing half leaves behind, fault by fault: which sessions, which user row, which notice, which tokens. |
| `AccountTheorems.OpenIsNewest` | app/auth/service.py:732-737 | An open request is the newest open one of its user, so the newest-request test never refuses a token that is still unconsumed. (Also lines 582-584.) |
| `AccountTheorems.ReachableStatesAreSound` | app/auth/service.py:245-291 | In every reachable state no two users share an address, every stored address is in normal form, and each user has at most one unconsumed change request. (Also lines 415-442, 484-501, 573-619, 704-730.) |
| `AccountTheorems.ValidateAcceptsExactly` | app/auth/service.py:347-385 | A token is accepted if and only if it names a stored, unrevoked, unexpired session; the row is then only stamped. |
| `AccountTheorems.SpentSessionStaysShut` | app/auth/service.py:347-385 | Over any run a revoked session is never accepted again, although validation writes `revoked=False` back. (Also lines 748-774.) |
| `AccountTheorems.SessionTermsAreFixed` | app/auth/service.py:347-385 | No call ever changes the expiry, owner or token of an existing session. (Also lines 748-774.) |
| `AccountTheorems.ResetSpendsSessions` | app/auth/service.py:415-442 | A successful reset has revoked exactly the sessions of its user. |
| `AccountTheorems.ResetEndsEarlierSessions` | app/auth/service.py:415-442 | After a successful password reset no token issued to that user before it is ever accepted again. |
| `AccountTheorems.ResetOutcome` | app/auth/service.py:415-442 | What a reset leaves behind in users and sessions, fault by fault. |
| `AccountTheorems.ResetLeavesSessionLiveExactlyWhen` | app/auth/service.py:432-440 | The reset saves the password before it revokes: a session outlives the new password if and only if consuming the token raised, or revoking raised before it reached that session. |
| `AccountTheorems.TokenSucceedsOnce` | app/auth/service.py:573-619 | Over any run each reset, verification or change token is confirmed successfully at most once, and later attempts change nothing. (Also lines 415-442, 484-501.) |
| `AccountFlows.RegisterSucceedsExactlyWhen` | app/auth/service.py:245-291 | Fault by fault, a registration with valid input, an admitted caller and an unowned address adds exactly one active unverified user, then one verification ticket, then that user's session row, stopping where a call raises; it signs in if and only if none raises, and otherwise nothing changes. (Also lines 748-774.) |
| `AccountFlows.RegisterRefusals` | app/auth/service.py:245-273 | Each refusal of a registration, disabled, invalid, rate limited or taken, has exactly its own cause. |
| `AccountFlows.LoginSucceedsExactlyWhen` | app/auth/service.py:293-335 | A login succeeds if and only if the password verifies for the active user who has the address and no call raises; it then stores exactly that user's new session row, and in every other case nothing. A wrong password, an unknown address and an inactive user are refused with one reason. |
| `AccountFlows.LoginOpensForItsTerm` | app/auth/service.py:347-385 | The token that a login hands out is accepted in the state that the login leaves if and only if its term, the longer one when remembered, has not ended, and for the user whose password it was. (Also lines 330-335, 748-774.) |
| `AccountFlows.RegisterOpensForItsTerm` | app/auth/service.py:245-291 | The same for a registration and its new user. (Also lines 347-385, 748-774.) |
| `AccountFlows.SignInHoldsAlongRun` | app/auth/service.py:347-385 | Over any run, the token of a login or registration is accepted at any later state if and only if its term has not ended and its row is not revoked, and always for the user who signed in. (Also lines 748-774.) |
| `AccountFlows.ValidateRefusals` | app/auth/service.py:347-370 | Each refusal of a token has exactly its own cause; an expired token's row is revoked with the refusal, and no other refusal changes anything. |
| `AccountFlows.IssuedSessionOpensForItsTerm` | app/auth/service.py:347-385 | A fresh session row is accepted under its token for exactly its term and names its user. (Also lines 748-774.) |
| `AccountFlows.LogoutShutsTheSession` | app/auth/service.py:337-345 | Right after an undisturbed logout the token is refused, and only the presented session is revoked. |
| `AccountFlows.LogoutDoneMeansShut` | app/auth/service.py:337-345 | Whichever call raises, a logout that reports success has shut its token, and one that has not raises or is disabled. |
| `AccountFlows.LogoutShutsForGood` | app/auth/service.py:337-345 | Over any run, after an undisturbed logout the token of a stored session is never accepted again. (Also lines 347-385.) |
| `AccountFlows.ResetCanLeaveASessionLive` | app/auth/service.py:432-440 | A concrete state and fault: the new password is in place and the session from before still opens. |
| `AccountRetries.AnyRetriesConverge` | app/auth/service.py:595-619 | Any number of confirmations with one token, each stopped anywhere, and then an undisturbed one before the token expires end in the rows of a single uninterrupted call, sessions revoked and token consumed, with at most one old-address notice over all of them; the last one reports success exactly when none before had consumed the token. |
| `AccountTickets.ResetTicketConfirmsExactlyWhen` | app/auth/service.py:415-442 | Over any run a reset ticket that could be confirmed once still takes a new password if and only if it has not expired and its own confirmation has not consumed it; nothing else ends it. |
| `AccountTickets.AddressChangeKeepsResets` | app/auth/service.py:415-442 | A reset ticket confirms after an email-change confirmation, under any fault, if and only if it did before. (Also lines 595-619.) |
| `AccountTickets.SiblingTicketsSurvive` | app/auth/service.py:415-442 | After a successful reset another ticket confirms if and only if it did before and is not the one that was used. |
| `AccountTickets.ResetSucceedsExactlyWhen` | app/auth/service.py:415-442 | Without faults a reset succeeds if and only if its token names a live record of an active user and the password is valid. |
| `AccountFlows.VerificationSucceedsExactlyWhen` | app/auth/service.py:484-501 | Fault by fault, a verification whose token names a live record of an active user marks that user verified, then the token consumed, stopping where a call raises; it succeeds if and only if none raises, and any other token changes nothing. |
| `AccountFlows.RequestedResetConfirms` | app/auth/service.py:395-442 | A reset asked for by address takes the new password with its token for exactly one hour and revokes that user's sessions. (Also lines 629-656.) |
| `AccountFlows.CreatedChangeConfirms` | app/auth/service.py:550-619 | A created change is confirmed by its token for exactly one day; then the address has moved, is verified, and every session of the user is revoked. (Also lines 704-730.) |
| `AccountRequests.ChangeIsCreatedExactlyWhen` | app/auth/service.py:503-548 | Fault by fault, a change record for that user and that address replaces the user's open ones if and only if a live session of an active user, the right password and a valid, different, unowned address are given; a taken address is answered alike but stores nothing. (Also lines 704-730.) |
| `AccountRequests.ChangeRefusals` | app/auth/service.py:515-535 | Each refusal of a change request behind a live session has exactly its own cause. |
| `AccountRequests.ResetIsStoredExactlyWhen` | app/auth/service.py:395-413 | A reset request answers every admitted caller alike and stores a one-hour ticket for the owner of the address, active or not, if and only if there is one. (Also lines 629-640.) |
| `AccountRequests.VerificationIsStoredExactlyWhen` | app/auth/service.py:444-458 | A verification request stores a one-day ticket if and only if the user exists, and changes nothing else. (Also lines 658-671.) |
| `AccountRequests.RequestedVerificationConfirms` | app/auth/service.py:484-501 | A requested verification confirms with its token for exactly one day. (Also lines 444-458, 658-671.) |
| `AccountRequests.RegisteredTicketConfirms` | app/auth/service.py:484-501 | The ticket that a registration stores verifies the new user for exactly one day. (Also lines 290-291, 658-671.) |
| `AccountRules.PasswordExactlyWhen` | app/auth/service.py:859-867 | The two case comparisons and the rest accept exactly the passwords of eight characters or more with a capital, a small letter and a digit. |
| `AccountRules.EmailExactlyWhen` | app/auth/service.py:852-856 | An address is accepted if and only if it is, but for blanks around it, text, `@`, text, a dot and text without blanks or further `@`; it is kept in small letters. (Also lines 78.) |
| `AccountRules.SupersededExactlyWhen` | app/auth/service.py:732-737 | In any table, sound or not, an open request is superseded if and only if the same user has an open one made later, or at the same moment under a greater id. (Also lines 582-584.) |
| `AccountRules.OrderIsByFirstDifference` | app/auth/service.py:737 | The order of ids is that of Python's strings: the first difference decides, and a prefix comes first. |
| `AccountRules.ResetRefusals` | app/auth/service.py:415-431 | Each refusal of a reset has exactly its own cause. |
| `AccountRules.ChangeConfirmRefusals` | app/auth/service.py:573-619 | A confirmation reports that it did not complete if and only if the stored state allowed it and revoking or consuming failed; an invalid token, a disabled service and a raised call have their own answers. |
| `AccountSafety.PerformIsGood` | app/auth/service.py:245-385 | Every call under every fault keeps the invariant and only ages the tables: rows stay, keep owner, token and terms, and spent rows stay spent. (Also lines 395-442, 444-458, 484-619.) |
| `AccountSafety.RunIsGood` | app/auth/service.py:110-774 | The same along whole runs. |
| `AccountTables.EmailsAreUnique` | app/user/memory.py:43-66 | In a valid user table an address identifies its owner. |
| `AccountTables.SaveKeepsUsersValid` | app/user/memory.py:55-66 | Saving a row whose address is free keeps rows and address index consistent and changes that row only. |
| `AccountRepositories.UserRepository.Save` | app/user/memory.py:55-66 | The loop over the address index ends in the table of the specification, or refuses an address of another user and changes nothing. |
| `AccountRepositories.SessionRepository.Save` | app/user/memory.py:93-104 | The session row is replaced and its previous token entry dropped. |
| `AccountRepositories.SessionRepository.Revoke` | app/user/memory.py:106-123 | Only the named row is revoked; an unknown id is ignored. |
| `AccountRepositories.SessionRepository.RevokeAllForUser` | app/user/memory.py:125-131 | Every row of the user is revoked, or those reached before the fault. |
| `AccountRepositories.OneTimeRepository.Save` | app/user/memory.py:318-321 | The record is stored under its id and token. (Also lines 357-360, 396-399.) |
| `AccountRepositories.OneTimeRepository.MarkConsumed` | app/user/memory.py:405-418 | Only the named record is consumed. (Also lines 327-338, 366-377.) |
| `AccountRepositories.OneTimeRepository.InvalidateForUser` | app/user/memory.py:423-430 | Every record of the user is consumed, or those reached before the fault. |
| `AccountService.AuthService.Register` | app/auth/service.py:245-291 | The method over the mutable repositories keeps the invariant and produces exactly the state and outcome of its specification function, under every fault; the theorems above are about that function. |
| `AccountService.AuthService.Login` | app/auth/service.py:293-335 | The method over the mutable repositories keeps the invariant and produces exactly the state and outcome of its specification function, under every fault; the theorems above are about that function. |
| `AccountService.AuthService.ValidateSession` | app/auth/service.py:347-385 | The method over the mutable repositories keeps the invariant and produces exactly the state and outcome of its specification function, under every fault; the theorems above are about that function. |
| `AccountService.AuthService.Logout` | app/auth/service.py:337-345 | The method over the mutable repositories keeps the invariant and produces exactly the state and outcome of its specification function, under every fault; the theorems above are about that function. |
| `AccountService.AuthService.RequestPasswordReset` | app/auth/service.py:395-413 | The method over the mutable repositories keeps the invariant and produces exactly the state and outcome of its specification function, under every fault; the theorems above are about that function. |
| `AccountService.AuthService.ConfirmPasswordReset` | app/auth/service.py:415-442 | The method over the mutable repositories keeps the invariant and produces exactly the state and outcome of its specification function, under every fault; the theorems above are about that function. |
| `AccountService.AuthService.RequestEmailVerification` | app/auth/service.py:444-458 | The method over the mutable repositories keeps the invariant and produces exactly the state and outcome of its specification function, under every fault; the theorems above are about that function. |
| `AccountService.AuthService.ConfirmEmailVerification` | app/auth/service.py:484-501 | The method over the mutable repositories keeps the invariant and produces exactly the state and outcome of its specification function, under every fault; the theorems above are about that function. |
| `AccountService.AuthService.RequestEmailChange` | app/auth/service.py:503-548 | The method over the mutable repositories keeps the invariant and produces exactly the state and outcome of its specification function, under every fault; the theorems above are about that function. |
| `AccountService.AuthService.CreateEmailChangeFor` | app/auth/service.py:704-730 | The method over the mutable repositories keeps the invariant and produces exactly the state and outcome of its specification function, under every fault; the theorems above are about that function. |
| `AccountService.AuthService.ConfirmEmailChange` | app/auth/service.py:550-619 | The method over the mutable repositories keeps the invariant and produces exactly the state and outcome of its specification function, under every fault; the theorems above are about that function. |
| `AccountService.AuthService.IssueSessionFor` | app/auth/service.py:748-774 | The method over the mutable repositories keeps the invariant and produces exactly the state and outcome of its specification function, under every fault; the theorems above are about that function. |
| `BaselineGates.GatesAgree` | scripts/check_iac_security_baseline.py:595-629 | The IaC and secret gates report the same lines equally often, the SAST gate as many lines, and all four gates are silent if and only if findings and exceptions agree as multisets. (With scripts/secret_scan_25a.py:220-252, scripts/check_sast_baseline.py:358-381, scripts/check_container_vuln_baseline.py:681-707.) |
| `BaselineGates.CompareIac` | scripts/check_iac_security_baseline.py:595-629 | The greedy loop reports, for each key, the surplus of findings as unbaselined and the surplus of exceptions as stale or excess; exactly the exceptions whose copies were used up are flagged, by index, before all unbaselined lines. |
| `BaselineGates.CompareSecrets` | scripts/secret_scan_25a.py:220-252 | The two counters give the same report, negative counts adding nothing. |
| `BaselineGates.CompareSast` | scripts/check_sast_baseline.py:358-381 | The greedy loop with one wording for unused exceptions: surplus on either side, per key. |
| `BaselineGates.CompareContainer` | scripts/check_container_vuln_baseline.py:681-707 | One line per key on either side, saying both numbers when there are too many exceptions, and one more for a blocking severity right before its finding; the lines of exceptions come first. |
| `BaselineGates.Extend` | scripts/secret_scan_25a.py:243-251 | `range` of a negative count adds no line. |
| `TerraformScope.ReferencedDirectories` | scripts/check_iac_security_baseline.py:284-296 | Whatever `pop` takes: the call raises if and only if a reachable directory is the root of the tree or names something outside the tree, and otherwise returns the least set that holds the seeds and is closed under references. |
| `TerraformScope.ModulesExactlyWhen` | scripts/check_iac_security_baseline.py:257-281 | A directory is read if and only if its spelling is not one of the root of the tree and all modules it names are in the tree; every spelling gives the same answer. |
| `TerraformScope.ReachableIsLeast` | scripts/check_iac_security_baseline.py:284-296 | What is reachable lies in every closed set around the seeds. |
| `TerraformScope.ResultDirectories` | scripts/check_iac_security_baseline.py:299-308 | The directories that scanned targets stand for, parents taken as pathlib takes them. |
| `TerraformScope.TargetStandsFor` | scripts/check_iac_security_baseline.py:299-308 | A scanned Terraform file stands for the directory it lies in, none at the root of the tree, and any other target for itself. |
| `TerraformScope.CleanExactlyWhen` | scripts/check_iac_security_baseline.py:311-321 | A target is clean if and only if it is relative, has no way up and no provider cache among its parts, does not start with a dot and is no state file. |
| `TerraformScope.NormalIsNormal` | scripts/check_iac_security_baseline.py:257-266 | The normal form of a relative path is one, with the same parts, so spellings with doubled slashes and dots name one directory. |
| `TerraformScope.AssertScope` | scripts/check_iac_security_baseline.py:311-328 | A normal return means exactly that the required roots were scanned, every target is clean, nothing reachable is the root or escapes (so no target is empty), and every Terraform directory is reachable from a scanned target. |
| `PublicBrand.NoInternalNames` | app/core/public_brand.py:25-63 | For every text the output holds none of "DealBrain", "DealScore", "Deal Score". |
| `PublicBrand.PresentationIsIdempotent` | app/core/public_brand.py:61-63 | Presenting twice is presenting once. |
| `PublicBrand.GuardsAreTransparent` | app/core/public_brand.py:25-58 | The early returns give the same result as the full replacement chains. |
| `PublicBrand.MixedNameExactlyWhen` | app/core/public_brand.py:35-58 | "PersonalPiqScore" appears in the output if and only if the input held it or "PersonalDeal Score". |
| `Substrings.ReplaceAppend` | app/core/public_brand.py:30-32 | `str.replace` works piece by piece where no occurrence straddles the boundary. |
| `Substrings.StaysApart` | app/core/public_brand.py:30-58 | A replacement lets no word straddle a boundary that did not before, if the word cannot overlap the new text. |
| `PublicBrand.PiecesArePresentedApart` | app/core/public_brand.py:25-63 | At every boundary that no internal name straddles, the whole text is presented as its two parts are, through all eight replacements. |
| `PublicBrand.NamesAreReplaced` | app/core/public_brand.py:25-63 | Each of the seven score names alone is presented as its public name, and the codename as the brand. |
| `PublicBrand.NameInContext` | app/core/public_brand.py:25-63 | In a context without internal names a score name gives way to its public name and the context stays as it is. |
| `CredentialNames.IdentifierSegments` | scripts/secret_scan_25a.py:284-291 | The loop over chunks and matches yields the segments of the specification. |
| `CredentialNames.SegmentsSpellTheName` | scripts/secret_scan_25a.py:284-291 | For every identifier the segments concatenate to the lower-cased name without underscores. (Also lines 67.) |
| `CredentialNames.CamelSegments` | scripts/secret_scan_25a.py:284-291 | The camelCase spelling of words has the words as segments, with adjacent one-letter words run together. (Also lines 67.) |
| `CredentialNames.SnakeSegments` | scripts/secret_scan_25a.py:284-291 | The snake_case spelling has the words themselves as segments. (Also lines 67.) |
| `CredentialNames.SpellingsAgreeExactlyWhen` | scripts/secret_scan_25a.py:151-165 | Both spellings have the same segments if and only if no two one-letter words are adjacent behind the first word, and then the same credential verdict. (Also lines 67, 284-291.) |
| `CredentialVerdicts.VerdictsDifferExactlyWhen` | scripts/secret_scan_25a.py:151-165 | A snake_case credential name is one in camelCase too, and the verdicts differ if and only if the words are harmless and a run of one-letter words behind the first spells a sensitive word, or one half of a sensitive pair with a neighbour. (Also lines 67, 284-291.) |
| `CredentialVerdicts.SpellingsCanDiffer` | scripts/secret_scan_25a.py:151-165 | The words x, t, o, k, e, n: a credential name in camelCase only. |
| `CredentialNames.DigitsAreCut` | scripts/secret_scan_25a.py:284-291 | At the front of any text: a whole run of digits is one match. (Also lines 67.) |
| `CredentialNames.WordIsCut` | scripts/secret_scan_25a.py:284-291 | At the front of any text: a whole run of small letters is one match, and so is one with a capital in front. (Also lines 67.) |
| `CredentialNames.CapitalsBeforeWordAreCut` | scripts/secret_scan_25a.py:284-291 | At the front of any text: capitals in front of a capitalized word are one match without that word's capital. (Also lines 67.) |
| `CredentialNames.CapitalsAreCut` | scripts/secret_scan_25a.py:284-291 | At the front of any text: capitals with no letter behind them are one match. (Also lines 67.) |
| `CredentialNames.OthersArePassed` | scripts/secret_scan_25a.py:284-291 | At the front of any text: any other character is passed over. (Also lines 67.) |
| `CredentialNames.CredentialExactlyWhen` | scripts/secret_scan_25a.py:151-165 | A name is a credential name if and only if one of the sensitive words is a segment, or "key" follows "api", "private" or "access"; in snake_case the segments are the words. (Also lines 67, 284-291.) |
| `CredentialNames.LongWordsSpellAlike` | scripts/secret_scan_25a.py:151-165 | With two letters or more in every word the spellings give the same segments and the same verdict. (Also lines 67, 284-291.) |
| `CookieOrigin.TrustedOrigins` | app/consumer/cookie_origin.py:82-99 | The trusted set is exactly the set of origins that the base URL and the CORS entries serialize to. |
| `CookieOrigin.TrustedIsAllowedExactlyWhen` | app/consumer/cookie_origin.py:156-227 | A trusted origin is a fixed point of the request parser and is allowed if and only if it has at most 200 characters, no NUL and no bracket that stays open; every other one is malformed; with `require_https` it is https. (Also lines 82-110.) |
| `CookieOrigin.RequestReadsConfigured` | app/consumer/cookie_origin.py:156-227 | How the request parser reads any configured origin: as itself, or as malformed. |
| `CookieOrigin.RequestReads` | app/consumer/cookie_origin.py:182-227 | Any spelling of a web origin is read as its serialization, if and only if it is short, has no NUL and its brackets are balanced. |
| `CookieOrigin.ConfigurationReads` | app/consumer/cookie_origin.py:156-179 | The configuration reads a spelling as the request parser does, up to four times the length. |
| `CookieOrigin.LibraryLiteralsAreStable` | app/consumer/cookie_origin.py:156-227 | What the standard library accepts between brackets, IPv6 addresses and the form of future versions, meets the hypothesis of the theorems on trusted origins. |
| `CookieOrigin.LongOriginIsRefused` | app/consumer/cookie_origin.py:156-213 | An origin of 201 characters: trusted, and refused. |
| `CookieOrigin.OpenBracketIsRefused` | app/consumer/cookie_origin.py:156-213 | The entry `https://[v1.[x]` is trusted as `https://v1.[x`, and refused. |
| `CookieOrigin.SpellingsGetOneVerdict` | app/consumer/cookie_origin.py:182-227 | Spellings that differ only in letter case, trailing dots, an explicit default port or a closing slash get one verdict. (Also lines 102-110.) |
| `CookieOrigin.AllowedExactlyWhen` | app/consumer/cookie_origin.py:182-213 | For any header and any trusted set: allowed if and only if the header spells an origin of the set, foreign if and only if it spells another; a missing header and the null origin are never allowed and have their own reasons. (Also lines 102-110.) |
| `CookieOrigin.SpellingIsAllowedExactlyWhen` | app/consumer/cookie_origin.py:182-227 | A short spelling of a web origin without NUL is allowed if and only if its serialization is trusted, and is foreign otherwise; a host of dots has none and is not allowed. (Also lines 102-110.) |
| `CookieOrigin.HeaderIsReadExactlyWhen` | app/consumer/cookie_origin.py:182-213 | A header is read as an origin if and only if it spells one: a web scheme, host, port and slash, behind control characters and before an empty query or fragment at most; it is read as the serialization of what it spells. |
| `CookieOrigin.EntryIsTrustedExactlyWhen` | app/consumer/cookie_origin.py:156-179 | A configured entry is trusted as an origin if and only if it spells it, under https where required, with any path but no query, fragment or user information. |
| `CookieOrigin.MutationPassesExactlyWhen` | app/consumer/cookie_origin.py:72-110 | The middleware lets a covered request through if and only if its header spells an origin that some configured entry spells too, and every other request always. (Also lines 123-147.) |
| `PasswordText.ParseFormat` | app/auth/password.py:27-62 | The `$`-joined text splits and decodes back to exactly the iterations, salt and digest. |
| `PasswordText.VerifyAcceptsExactly` | app/auth/password.py:27-62 | Against the stored form of a password `verify` never raises and accepts another password if and only if it is not empty and derives the same key. |
| `PasswordText.VerifyHash` | app/auth/password.py:27-62 | A password verifies against its own hash, for every salt and allowed iteration count. |
| `PasswordText.HashExactlyWhen` | app/auth/password.py:22-40 | A password is hashed if and only if it is not empty and the work factor is at least 100000; the stored form then holds exactly these parameters. |
| `PasswordText.StoredExactlyWhen` | app/auth/password.py:42-54 | Any text is read as stored parameters if and only if it is the algorithm and three fields that denote them. |
| `PasswordText.VerifyExactlyWhen` | app/auth/password.py:42-62 | For any text `verify` accepts exactly the non-empty passwords that derive the key it spells, and raises exactly where the parameters are no use to the key derivation. |
| `Numerals.IntegerExactlyWhen` | app/auth/password.py:50 | A text is read as an integer if and only if, without blanks around it, it is a sign or none and groups of digits with single underscores between. |
| `Numerals.ValueDecimal` | app/auth/password.py:50 | Printing the value of digits without a leading zero gives them back. |
| `Numerals.HexForgetsCase` | app/auth/password.py:51-52 | Reading bytes forgets letter case. |
| `Numerals.HexFromHex` | app/auth/password.py:51-52 | Printing what was read gives the text back, but for letter case and blanks. |
| `Numerals.ParseDecimal` | app/auth/password.py:37-38 | Reading a printed iteration count gives it back. (Also lines 50.) |
| `Numerals.FromHexHex` | app/auth/password.py:37-38 | Reading printed bytes gives them back. (Also lines 51-52.) |
| `SnippetFingerprint.ParseCodeLines` | scripts/check_sast_baseline.py:194-207 | The loop yields the dictionary of the specification or fails. |
| `SnippetFingerprint.RenumberedCode` | scripts/check_sast_baseline.py:194-207 | Moving all line numbers of a snippet moves the keys of its dictionary and nothing else. |
| `SnippetFingerprint.RenumberingKeepsFingerprint` | scripts/check_sast_baseline.py:194-227 | Moving a snippet and its line range by one offset changes neither normalized source nor fingerprint, and errors stay errors. |
| `SnippetFingerprint.SplitAtBreak` | scripts/check_sast_baseline.py:198 | A line with its break is cut off and the rest is split on its own, for every break, a carriage return taking a line feed along. |
| `SnippetFingerprint.ParsedCodeExactlyWhen` | scripts/check_sast_baseline.py:194-207 | A snippet is accepted if and only if it has a line and all lines carry different numbers; the dictionary holds under each number the right-stripped text of that line and nothing else. |
| `SnippetFingerprint.SourceExactlyWhen` | scripts/check_sast_baseline.py:210-215 | There is a normalized source if and only if the snippet is accepted and has every line of the range. |
| `SnippetFingerprint.SourceSplitsBack` | scripts/check_sast_baseline.py:194-215 | The normalized source splits back at its line feeds into the right-stripped texts of the lines of the range, in order. |
| `SnippetFingerprint.SameFingerprintExactlyWhen` | scripts/check_sast_baseline.py:218-227 | For a digest without collisions two fingerprints are equal if and only if source and issue make the same text; under one issue, if and only if the normalized sources are equal. |
| `SnippetFingerprint.OneLineIssuesAreTold` | scripts/check_sast_baseline.py:218-227 | With issues of one line that text tells source and issue apart; an issue of several lines can take the place of source lines. |
| `SnippetFingerprint.FingerprintExactlyWhen` | scripts/check_sast_baseline.py:218-227 | There is a fingerprint if and only if the issue is not blank and there is a normalized source. |
| `PinFile.NormalizeIsIdempotent` | scripts/check_pip_audit_baseline.py:78-79 | Normalizing a name twice is normalizing it once. |
| `PinFile.NormalizeIsNormal` | scripts/check_pip_audit_baseline.py:78-79 | A normalized name has small letters, single dashes for separators and no blank at either end, and such a name stays as it is. |
| `PinFile.NormalizeForgets` | scripts/check_pip_audit_baseline.py:78-79 | Normalizing forgets letter case, and which separators stand together and how many. |
| `PinFile.PinMatchesExactlyWhen` | scripts/check_pip_audit_baseline.py:88-107 | The pattern matches exactly a name, two equals signs, a version, blanks, and nothing more or a marker, in one way. |
| `PinFile.LineIsReadExactly` | scripts/check_pip_audit_baseline.py:88-107 | A line is skipped if and only if it is blank or a comment, and pins a name if and only if it spells it with that version and does not start with a dash. |
| `PinFile.ExportExactlyWhen` | scripts/check_pip_audit_baseline.py:88-107 | An export is accepted if and only if every line is blank, a comment or a pin, no name is pinned twice and some name is; the pins are exactly those of its lines. |
| `PinFile.ParseExport` | scripts/check_pip_audit_baseline.py:88-107 | The loop yields the pins of the specification or fails. |
| `PinFile.RoundTripExactlyWhen` | scripts/check_pip_audit_baseline.py:88-107 | Parsing the printed pin file gives the pins back if and only if there is a pin and every name reads back as itself without a leading dash and every version has no `;` and no blank, in whatever order they are printed. (Also lines 385-396.) |
| `PinFile.DashedPinIsRefused` | scripts/check_pip_audit_baseline.py:88-107 | The pin of `_foo` is read as `-foo`, and what is printed for it is refused. (Also line 391.) |
| `PinFile.ReadIsGood` | scripts/check_pip_audit_baseline.py:88-107 | Every pin read has a name that reads back as itself and a version without `;` and blanks. |
| `PinFile.SameClosureMeansEqual` | scripts/check_pip_audit_baseline.py:127-140 | The closure check passes if and only if both maps are equal. |
| `PinFile.ParseAuditPayload` | scripts/check_pip_audit_baseline.py:256-299 | The audit is accepted if and only if every entry is clean with an id for each vulnerability, none comes twice and they report exactly the exported pins; the findings are those of all entries in order. |
| `PinFile.AuditCoversTheLock` | scripts/check_pip_audit_baseline.py:256-299 | When both closure checks pass, reported, exported and locked pins are one map. (Also lines 127-140, 409-414.) |
| `RequestPacer.AttemptsAreSpaced` | scripts/shopify_global_catalog_normalization_validation.py:155-220 | From one HTTP attempt to a later one, across both tools, at least one interval passes per attempt; so consecutive attempts are an interval apart. (Also lines 108-143.) |
| `RequestPacer.Wait` | scripts/shopify_global_catalog_normalization_validation.py:130-143 | What is slept is never negative, reaches the interval behind the last attempt, and goes no further. |
| `RequestPacer.SleepIsBounded` | scripts/shopify_global_catalog_normalization_validation.py:130-143 | The whole sleep of a run is at most one interval per request but the first. |
| `RequestPacer.SleepFitsTheRun` | scripts/shopify_global_catalog_normalization_validation.py:130-143 | The sleeps fit between the first stamp and the last. |
| `RequestPacer.SleepsAddUp` | scripts/shopify_global_catalog_normalization_validation.py:130-143 | The reported total and count are the sum and number of the individual sleeps. |
| `RequestPacer.CountersAreExact` | scripts/shopify_global_catalog_normalization_validation.py:179-220 | Each counter equals the number of calls of the run that its name describes, whatever fails. |
| `RequestPacer.RunStaysBalanced` | scripts/shopify_global_catalog_normalization_validation.py:179-220 | Completed never exceeds attempted per tool, HTTP attempts lie between completed and logical attempts, and the next id counts the logical attempts. |
| `RequestPacer.OneRequestPerCall` | scripts/shopify_global_catalog_normalization_validation.py:284-317 | A call sends at most one request and is never retried; it returns a payload exactly when it is counted as completed. (Also lines 179-205.) |
| `RequestPacer.RateLimitReportAddsUp` | scripts/shopify_global_catalog_normalization_validation.py:231-269 | A report is raised if and only if a known tool is answered with status 429; it names this call's tool and id and this reply's delay, is accepted by its own constructor, and its counters and sleep total obey the accounting and the cadence. (Also lines 82-102, 200-202.) |
| `RequestPacer.AnswersTellReplies` | scripts/shopify_global_catalog_normalization_validation.py:179-213 | For a known tool each kind of reply has its own outcome and each outcome its own kind of reply: every status but 429 fails with that status, a payload is returned as it is, and the reported delay is the stripped header if that is up to eight digits or an HTTP date and "unknown" otherwise; other tools are refused. (Also lines 261-269.) |
| `RequestPacer.HttpDateExactlyWhen` | scripts/shopify_global_catalog_normalization_validation.py:65-69 | The date pattern accepts exactly a day, a date, a time of day and GMT. |
| `RequestPacer.ShopifyNetworkRequestPacer.BeforeHttpRequest` | scripts/shopify_global_catalog_normalization_validation.py:130-143 | The method sleeps the remainder, stamps the attempt with the clock, and changes its totals as specified. |
| `RequestPacer.LiveStagingCatalogTransport.CallTool` | scripts/shopify_global_catalog_normalization_validation.py:179-205 | The method produces exactly the state and outcome of the specification for every reply of the network, and its outcome tells of that reply. |
| `AnalyticsSchema.ClientAcceptsExactly` | app/analytics/schema.py:322-445 | The client validator accepts exactly the payloads that the server validator accepts once `decision_id` is dropped and that besides name a client event, carry no malformed reference, say what the table says and keep to the exact fields. |
| `AnalyticsSchema.ReasonsAreTrue` | app/analytics/schema.py:322-431 | Whatever reason a validator gives, the payload has the defect that it names: a key of that kind, that value outside its vocabulary, or a contradiction with the table. |
| `AnalyticsSchema.UuidExactlyWhen` | app/analytics/schema.py:322-431 | The pattern of ids accepts exactly five groups of 8, 4, 4, 4 and 12 hexadecimal digits. |
| `AnalyticsRepository.PersistOutcome` | app/analytics/repository.py:19-37 | A write is recorded if and only if storage answers and its id is new, reported as duplicate if and only if the stored contents are the same, and otherwise changes nothing. |
| `AnalyticsRepository.FirstPartyProductAnalyticsRepository.Persist` | app/analytics/repository.py:19-33 | The method produces exactly the store and result of the specification. |
| `AnalyticsService.ServerAcceptsExactly` | app/analytics/service.py:79-116 | A server emission is accepted if and only if its properties are in the vocabulary. |
| `AnalyticsService.AcceptedPayloadSaysItsFields` | app/analytics/service.py:54-77 | Nothing of an accepted client payload is lost or mixed up on the way to the stored properties. |
| `AnalyticsService.ReadTrackingPreference` | app/analytics/preference.py:73-91 | Analytics is allowed if and only if the claims are there and choose "analytics_allowed"; silence and unknown choices are essential-only and not explicit, any other choice is kept, and advertising is off. |
| `AnalyticsService.ProductAnalyticsService.RecordClientEvent` | app/analytics/service.py:54-77 | The method produces exactly the store and result of the specification. |
| `AnalyticsService.ProductAnalyticsService.RecordServerEvent` | app/analytics/service.py:79-130 | The method produces exactly the store and result of the specification. |
| `AnalyticsService.ProductAnalyticsService.WriteFields` | app/analytics/service.py:132-196 | The method produces exactly the store and result of the specification. |
| `AnalyticsRuns.RecordedExactlyWhenNew` | app/analytics/service.py:54-196 | A call is recorded if and only if it passes validator, consent, subject and shape, storage answers and the id is new; then its event is the one new row, else the store is unchanged. |
| `AnalyticsRuns.AnswersExactlyWhen` | app/analytics/service.py:54-196 | Each answer of a call has exactly its own cause: the validator's objection with its reason, missing consent or subject, an event off the allow-list, silent storage, the same contents under that id, or others. |
| `AnalyticsRuns.RowsNeverChange` | app/analytics/repository.py:19-33 | Over any run a stored row is never changed or removed, and rows keep their order. |
| `AnalyticsRuns.RowsComeFromWrites` | app/analytics/service.py:54-196 | Every row was recorded by a write of the run, as that write gave it. |
| `AnalyticsRuns.ClientRunsStoreTrueRows` | app/analytics/service.py:132-196 | Over any run of client calls in well-formed contexts every row has a client-owned name, the table's surface, action and outcome, the consent "analytics_allowed" and the stored shape, and no call fails on the shape. (Also lines 54-77.) |
| `AnalyticsRuns.ConsentStandsBehindEveryRow` | app/analytics/preference.py:73-91 | Whatever calls made the store, every row goes back to a write of the run whose cookie claims chose "analytics_allowed", and says so. (With app/analytics/service.py:54-196.) |
| `AnalyticsRuns.NoRowWithoutConsent` | app/analytics/preference.py:73-91 | A run in which nobody chose "analytics_allowed" stores nothing. (With app/analytics/service.py:54-196.) |
| `AnalyticsRuns.RowSaysItsWrite` | app/analytics/service.py:132-196 | The row of a write says what its payload said, value by value, under the payload's id or a fresh one, with the digest of its subject, its context and its time, from the browser and from the server alike. |
| `TrackingCookie.ChoiceReadsBack` | app/analytics/preference.py:138-201 | The cookie that a choice leaves reads back as the preference that was answered; a subject is kept or made if and only if the choice allows analytics. (Also lines 73-127.) |
| `TrackingCookie.ClaimsExactlyWhen` | app/analytics/preference.py:94-127 | A cookie has claims if and only if it is the signed form of a payload with exactly the four claims, the current schema and version, and a known choice. |
| `TrackingCookie.SignedChoiceStandsBehindEveryRow` | app/analytics/preference.py:73-127 | Over any run every stored row goes back to a write behind a signed cookie that says "analytics_allowed". (With app/analytics/service.py:54-196.) |
| `AnalyticsRuns.RepeatIsDuplicate` | app/analytics/service.py:132-196 | Repeating a recorded call that names its id is reported as a duplicate and stores nothing, however much later. |
| `AnalyticsFunnel.SameMaterialExactlyWhen` | app/analytics/event_identity.py:15-21 | Two lists of parts make the same id material if and only if they make the same lines. |
| `AnalyticsFunnel.MaterialIsInjective` | app/analytics/event_identity.py:15-21 | The material is injective on parts without newlines; a part with a newline shows that it is not beyond. |
| `AnalyticsFunnel.SameIdExactlyWhen` | app/analytics/funnel.py:186-212 | With an injective UUID two emissions share an id if and only if name, subject and parts make the same lines. |
| `AnalyticsFunnel.ReplayedObservationsChangeNothing` | app/analytics/funnel.py:27-142 | Replaying any list of research and refinement observations in the same contexts, with all identity parts present, leaves the store exactly as the first pass did, even when storage fails on the replay. (Also lines 186-218.) |
| `AnalyticsFunnel.ReplayAddsOnlyUnidentified` | app/analytics/funnel.py:186-212 | A replay adds exactly one row for each kept emission without identity parts, so it changes nothing if and only if all kept emissions have them. |
| `AnalyticsFunnel.EmissionsAreNeverRejected` | app/analytics/funnel.py:27-142 | What the two emitters send for any list of observations is never rejected by the server validator. (Also lines 228-238.) |
| `AnalyticsFunnel.StartsMatchOutcomes` | app/analytics/funnel.py:72-105 | Over any list of observations every research execution is told to have started as often as it is told to have completed or failed. |
| `AnalyticsFunnel.ResearchIsToldTruly` | app/analytics/funnel.py:27-105 | The research emitter tells each event at most once, if and only if its transition took place, in the wording of its name and under the id of that transition, the start before the end. |
| `AnalyticsFunnel.RefinementIsToldTruly` | app/analytics/funnel.py:108-142 | The refinement emitter tells an attempt if and only if one was made, then a success if and only if it was applied, under decision, context, version and status. |
| `AnalyticsFunnel.EmitResearchObservations` | app/analytics/funnel.py:27-105 | The method performs exactly the guarded writes of the specification, in order. |
| `AnalyticsFunnel.EmitRefinementObservations` | app/analytics/funnel.py:108-142 | The method performs exactly the guarded writes of the specification, in order. |
| `Learning.WindowsNest` | app/analytics/learning.py:197-211 | For every list of events and clock the one-day window lies in the seven-day one and that in the thirty-day one, and so do the subject counts. (Also lines 233-237, 444-448.) |
| `Learning.WindowIsWholeDays` | app/analytics/learning.py:197-211 | An event is in a window if and only if it is aware and its UTC day is one of the one, seven or thirty days ending today. (Also lines 444-448.) |
| `Learning.FunnelAddsUp` | app/analytics/learning.py:240-272 | Matched plus completed without start is the number of distinct completed decisions; the rate is available if and only if a start was seen, lies in [0, 1], and is one if and only if every start was completed. (Also lines 418-441.) |
| `Learning.Counts` | app/analytics/learning.py:409-415 | The loop counts the events of each tracked name. |
| `Learning.RetentionOf` | app/analytics/learning.py:346-371 | The two dictionaries of sets give the subjects seen on two days and those with two decisions; nothing on a truncated scan. |
| `Learning.RetentionIsBounded` | app/analytics/learning.py:346-371 | Returning and repeating subjects never exceed the distinct ones. |
| `Learning.ReturningExactlyWhen` | app/analytics/learning.py:346-371 | A subject returns if and only if it is seen on two days, and repeats if and only if it completes two different decisions. |
| `Learning.CountIsPlaces` | app/analytics/learning.py:409-415 | The count of a name is the number of events that carry it. |
| `Learning.NobodyReturnsWithinADay` | app/analytics/learning.py:346-371 | In the one-day window nobody returns. (Also lines 197-211.) |
| `Learning.ScanIsWholeExactlyWhen` | app/analytics/learning.py:178-185 | The scan holds every stored row if and only if it is not flagged as truncated. |
| `Learning.ScanIsNewest` | app/analytics/learning.py:178-185 | A scan has as many rows as bound and store allow, newest first, and holds a row if and only if fewer than that many were inserted after it. |
| `Learning.FunnelCounts` | app/analytics/learning.py:240-272 | The funnel counts decision hashes: those seen started, those seen started and completed, and those seen completed alone; its rate times the first is the second. (Also lines 418-441.) |
| `Learning.ActiveSubjectsCount` | app/analytics/learning.py:233-237 | Each subject with an event in the window is counted exactly once. |

## Left out

- AuditCoversTheLock: takes the three pin maps; reading the lock file, the project file and the export command is I/O.
- BaselineGates.CompareIac: a finding and an exception are the tuple of the compared fields; label texts and the sorting of the printed lines within one kind are not modelled.
- BaselineGates.CompareContainer: the label texts and the sorting by them are not modelled, nor that the labels of two keys could coincide.
- TerraformScope.AssertScope: directories and module references are inputs; symbolic links, path resolution on disk and paths with `..` parts, which the scope check refuses before the walk, are not modelled.
- RequestPacer.AttemptsAreSpaced: times are reals, so the rounding of floating-point seconds is not modelled.
- Learning.FunnelAddsUp: the rate is an exact quotient, not a rounded float.
- AccountFlows.LoginSucceedsExactlyWhen: the failed-login lock and the rate limiter are one admission flag; the MFA hook, which is never enabled, is left out.
- AccountFlows.RegisterSucceedsExactlyWhen: the profile, settings and consent writes are one step that can raise; their contents are not modelled, nor are audit records.
- Account calls with absent optional repositories, request by address for a new verification, account deletion, OAuth: simple branches around the same tables.
- Mail for new tokens: sending it can only fail with the delivery error that the code catches, so it has no effect on the stored state.
- User agent, IP hint and CSRF fields of a session: stored and copied, never decided upon.
- `_line_range` of the SAST gate: the range is given as the list it returns.
- The rule tables, file walking, JSON decoding and subprocess calls of the gates: I/O and data.
- The limit on the digits of a printed or parsed integer: integers are unbounded.
- Unicode: case mapping, blanks, digits and line ends beyond ASCII.
- TrackingCookie.ChoiceReadsBack: the encoding of the claims and the signature are unknown functions; the lifetime and flags of the cookies are not modelled.
- Analytics emitters outside research and refinement (ask, decision, identity, results): the same guarded write with other constants.
- Storage failures in the middle of an analytics insert: a write either takes place or raises before.
- The ask, research, identity and visibility counts and the feedback aggregates of learning: further instances of `Counts` and the same rate.
- HTTP routes, middleware, pages, settings and database schema: user interface and wiring.
