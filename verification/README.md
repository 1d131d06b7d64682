# Cool Tunnel server: verified models

Dafny models of six components of the Cool Tunnel server, each with properties that
hold for every input, run or reachable state.

- **X25519** (`Modular`, `X25519`, `CurveLaws`, `CurveGeometry`, `Base64Url`): the hand-written
  Montgomery ladder behind the Reality key fallback, from its byte codecs to the printed keys, on
  arrays as in the source. Two hypotheses are left explicit: that 2^255 - 19 is prime and, where an
  arbitrary family of points is meant, that it obeys the curve's doubling and
  differential-addition laws. That the formulas are the tangent and chord constructions is proved.
  Euclid's lemma and Fermat's little theorem are proved from the definition of a prime.
- **The `.env` migrator** (`Dotenv`, `EnvMigrate`, `EnvMigrateLaws`, `EnvMeaning`,
  `EnvMigrateRuns`, `EnvManaged`, `EnvBackfill`): four text rewrites and the parser that gives
  the file its meaning.
- **The sing-box supervisor** (`Supervisor`, `ConfigMigration`): a state machine whose steps are
  the stretches of code between awaits, and the in-place rewrite of legacy configs.
- **The login throttle** (`LoginThrottle`, `ThrottleLaws`, `ThrottleBounds`, `ThrottleLimits`): two
  insertion-ordered maps with fixed windows and a gap between check and record.
- **The admin store** (`UserStore`, `OwnerLaws`, `UserEdits`, `AccountStore`, `AccountLaws`,
  `AccountEdits`, `SubscriptionTokens`): users and bootstrap tokens, proxy accounts and rendering,
  subscription tokens. Tables are maps and sequences, transactions are atomic.
- **Profile URLs** (`ProfileUrl`): the parser and printer of `naive+https://` URLs.

In each component the imperative code is a method proved against a specification
function or a step of a state machine; the laws are lemmas about those, and the constants and
texts behind them are stated in literals (`X25519.FieldOrderValue`, `CurveGeometry`,
`EnvBackfill`, `ThrottleLimits`, `UserEdits`, `AccountEdits`).

Where the code and its own text disagree, the model follows the code:

- `operator/src/util/env-migrate.ts:5` and `:222` call the phases idempotent. Phases 3 and 4
  rewrite one line per run, and phase 3 creates work for phase 2 of the next run. When
  each phase and each number of runs is enough is stated exactly
  (`EnvMigrateRuns.FixIdempotentIff`, `SingboxIdempotentIff`, `OneRunIff`, `RunsExact`).
- `operator/src/util/env-migrate.ts:119` relocates PANEL_DOMAIN. In a file without a DOMAIN=
  line it deletes every definition, and with several definitions it keeps the first,
  while the parser reads the last (`EnvManaged.PanelValueKept`).
- `operator/src/util/env-migrate.ts:145` reports a relocation whenever the definition comes after a
  use, also where nothing moves: with a use above the first DOMAIN= line a settled file
  keeps reporting one (`EnvBackfill.ReportsChanges`, `EnvBackfill.ReportedForNothing`).
- `core/ct-protocol/src/profile.rs:125` calls `to_url` lossless. It drops the label and its
  output does not parse back to the same profile when the password holds an `@`
  (`ProfileUrl.RoundTripIff`); the parser also accepts ports such as `+0443`.
- `apps/api/src/core-boundary.ts:163` and `apps/api/src/app.ts:938` decide eligibility
  separately. They differ on one kind of row, which the store never writes
  (`AccountLaws.EligibilityCompared`).
- `singbox-core/src/subcommands/supervise.ts:203` says that the check before a respawn keeps a
  bad config from being started. The process opens the file again when it starts. It
  reads the version its callback validated exactly when the file, or the migrated copy, is
  left alone in between (`Supervisor.StartsWhatItValidated`); otherwise it reads another
  version, checked or not (`Supervisor.UnvalidatedStart`, `Supervisor.BootUnvalidated`).
- `singbox-core/src/subcommands/supervise.ts:267` kills the child before a restart replaces it. Some
  restart drops another restart's child without killing it exactly when a timer finds a
  valid file during a kill (`Supervisor.OrphanedIffOverlap`).
- `operator/src/tasks/doctor.ts:172` accepts direct outbounds that the supervisor rewrites
  (`ConfigMigration.DoctorExactly`).

## Model

| member | source | states |
|---|---|---|
| X25519.Mod | singbox-core/src/subcommands/reality-keygen.ts:192-195 | the reduction lies in [0, P) and is congruent to its argument, for negative arguments too |
| X25519.Decode | singbox-core/src/subcommands/reality-keygen.ts:174-180 | the byte loop computes the little-endian value of any byte string |
| X25519.Encode | singbox-core/src/subcommands/reality-keygen.ts:182-190 | the byte loop writes the 32 little-endian digits of the argument mod P |
| X25519.FieldOrderValue | singbox-core/src/subcommands/reality-keygen.ts:124 | the order of the field is the decimal number 2^255 - 19 |
| X25519.DecodeEncode | singbox-core/src/subcommands/reality-keygen.ts:174-190 | decoding the encoding of any integer gives its remainder modulo the decimal number 2^255 - 19 |
| X25519.EncodeDecode | singbox-core/src/subcommands/reality-keygen.ts:174-190 | encoding what 32 bytes decode to gives the bytes back exactly when their value is below P |
| X25519.ModPow | singbox-core/src/subcommands/reality-keygen.ts:197-207 | square-and-multiply is the mathematical power mod P for every exponent >= 0, and 1 for negative ones |
| X25519.LadderStep | singbox-core/src/subcommands/reality-keygen.ts:152-164 | the factored round computes Montgomery doubling and differential addition as written out in section 5 of RFC 7748 |
| X25519.BitAt | singbox-core/src/subcommands/reality-keygen.ts:144 | the bit picked from byte t div 8 is bit t of the whole little-endian scalar |
| X25519.Ladder | singbox-core/src/subcommands/reality-keygen.ts:137-170 | the lazily swapped loop (xor of adjacent bits, final unswap) ends with the pair of the ladder that branches on each bit |
| X25519.AddSymmetric | singbox-core/src/subcommands/reality-keygen.ts:157-162 | differential addition does not depend on the order of its points, which is what makes the lazy swap sound |
| X25519.ScalarMult | singbox-core/src/subcommands/reality-keygen.ts:129-172 | clamping, ladder, inversion and encoding together, on arrays, return the digits of the quotient of the branching ladder |
| CurveLaws.ScaledDouble | singbox-core/src/subcommands/reality-keygen.ts:152-164 | scaling the first point by l scales the doubled point by l^4 |
| CurveLaws.ScaledAdd | singbox-core/src/subcommands/reality-keygen.ts:152-164 | scaling the two points by l and m scales the sum by (l*m)^2 |
| CurveGeometry.TangentLaw | singbox-core/src/subcommands/reality-keygen.ts:152-164 | doubling a point (x, y) of the curve with y not 0 gives the abscissa of the third intersection of its tangent |
| CurveGeometry.VerticalTangent | singbox-core/src/subcommands/reality-keygen.ts:152-164 | the double is the point at infinity exactly for y = 0 |
| CurveGeometry.ChordLaw | singbox-core/src/subcommands/reality-keygen.ts:152-164 | differential addition of two points with different abscissas gives the abscissa of their sum by the chord construction, given that of their difference |
| CurveGeometry.SumTimesDifference | singbox-core/src/subcommands/reality-keygen.ts:152-164 | the identity behind it: the abscissas of sum and difference multiply to (x*x2 - 1)^2 / (x2 - x)^2 |
| CurveLaws.BranchingClimbs | singbox-core/src/subcommands/reality-keygen.ts:143-165 | before bit t-1 the pair represents S(k div 2^t) and S(k div 2^t + 1), for any family S that obeys the curve laws up to scaling |
| CurveLaws.ClampMeaning | singbox-core/src/subcommands/reality-keygen.ts:130-133 | the clamped scalar is 2^254 plus the low 254 bits rounded down to a multiple of 8, so it lies in [2^254, 2^255) and 8 divides it |
| CurveLaws.QuotientDivides | singbox-core/src/subcommands/reality-keygen.ts:171 | x * z^(P-2) mod P times z is x, for z not divisible by P (Fermat, proved here from primality) |
| CurveLaws.QuotientInvariant | singbox-core/src/subcommands/reality-keygen.ts:171 | the affine quotient does not change under nonzero scaling of the point |
| CurveLaws.MultipleObeys | singbox-core/src/subcommands/reality-keygen.ts:152-164 | the reference multiples by binary recursion obey the curve laws, so the hypothesis on S is met |
| CurveLaws.MultipleUnique | singbox-core/src/subcommands/reality-keygen.ts:152-164 | any two families that obey the laws agree up to scaling at every index |
| CurveLaws.ScalarMultMeaning | singbox-core/src/subcommands/reality-keygen.ts:129-172 | for every scalar and u the result is the number v below the decimal number 2^255 - 19 with v * z = x, S(k) = (x : z) for the clamped k, and 0 at infinity |
| CurveLaws.ScalarMultIsMultiple | singbox-core/src/subcommands/reality-keygen.ts:129-172 | for every u not 0 mod P the result is the affine value of the clamped multiple of that point |
| CurveLaws.ScalarMultOfZero | singbox-core/src/subcommands/reality-keygen.ts:129-172 | for u = 0 mod P the result is 0 |
| Modular.Fermat | singbox-core/src/subcommands/reality-keygen.ts:171 | Fermat's little theorem, the fact behind inversion by z^(P-2), from the bare definition of a prime |
| CurveLaws.GenerateFallback | singbox-core/src/subcommands/reality-keygen.ts:111-122 | both printed keys are base64url of 32 bytes and have the form the configuration accepts |
| CurveLaws.PublicKeyMeaning | singbox-core/src/subcommands/reality-keygen.ts:111-127 | decoding the printed public key gives the affine coordinate of the clamped multiple of the base point 9 |
| Base64Url.EncodeShape | singbox-core/src/util/base64url.ts:6-10 | the encoding uses only the URL-safe alphabet, without padding, and has (4n+2) div 3 characters |
| Base64Url.EncodeGroup | singbox-core/src/util/base64url.ts:6-10 | three bytes become the four base-64 digits of the number they are in base 256, and the rest follows |
| Base64Url.EncodeEnd | singbox-core/src/util/base64url.ts:6-10 | one or two bytes at the end become two or three digits of their number with zero bits appended |
| Base64Url.UpperDigits | singbox-core/src/util/base64url.ts:9 | the first 26 digits are the capital letters in order |
| Base64Url.LowerDigits | singbox-core/src/util/base64url.ts:9 | the next 26 are the small letters |
| Base64Url.OtherDigits | singbox-core/src/util/base64url.ts:9 | the last twelve are 0 to 9, hyphen and underscore |
| Base64Url.DecodeEncode | singbox-core/src/util/base64url.ts:6-16 | decoding the encoding of any byte string gives it back (section 5 of RFC 4648) |
| Base64Url.KeyAccepted | packages/config/src/index.ts:88-94 | the encoding of any 32 bytes is a 43-character key that validateRealityKey accepts |
| Base64Url.AcceptedDecodes | packages/config/src/index.ts:88-94 | whatever key text validateRealityKey accepts decodes to 32 bytes |
| Dotenv.ParseDotenv | operator/src/util/env.ts:32-49 | the parser returns the meaning of the file's lines, the last assignment of a key winning |
| Dotenv.MeaningIsLast | operator/src/util/env.ts:34-47 | a key is defined exactly when some line assigns it, and its value is the last one assigned |
| Dotenv.AssignmentForms | operator/src/util/env.ts:35-46 | with blanks anywhere the syntax allows them: a quoted value is the text between the quotes, an unquoted one is itself up to the first hash after a blank |
| Dotenv.BlankCharacters | operator/src/util/env.ts:35 | the characters that count as blanks, one by one |
| Dotenv.SplitJoin | operator/src/util/env-migrate.ts:101 | splitting the join of lines without terminators gives the lines back |
| EnvMigrate.BackfillPanelDomain | operator/src/util/env-migrate.ts:58-94 | phase 1 on text: inserts two lines after the first DOMAIN= line exactly when PANEL_DOMAIN= is absent and DOMAIN has a value, warns when it cannot |
| EnvMigrate.FirstPanelDomainRefLine | operator/src/util/env-migrate.ts:100-108 | the 1-based number of the first non-comment reference, or 0 |
| EnvMigrate.PanelDomainDefLine | operator/src/util/env-migrate.ts:111-117 | the 1-based number of the first PANEL_DOMAIN= line, or 0 |
| EnvMigrate.RelocatePanelDomain | operator/src/util/env-migrate.ts:119-152 | phase 2 on text, exactly when the definition comes after the first reference: strips every definition and reinserts the first after the first DOMAIN= line, or nowhere if there is none |
| EnvMigrateLaws.FixRewritesFirst | operator/src/util/env-migrate.ts:156-168 | phase 3 replaces the variable in the first legacy APP_URL line, keeps the scheme and the rest of the line, and touches no other line |
| EnvMigrate.BackfillSingboxDirectDefaults | operator/src/util/env-migrate.ts:172-218 | phase 4 on text: canonicalises the first prefer_ipv4 line and appends the missing defaults as one block |
| EnvMigrate.MigrateEnv | operator/src/util/env-migrate.ts:224-247 | the four phases in order: content, list of changes and warning |
| EnvBackfill.PanelFromDomain | operator/src/util/env-migrate.ts:50-94 | a file without PANEL_DOMAIN whose first DOMAIN= line holds d, bare or in single or double quotes, defines it as panel. followed by d after any number of runs, d being what the parser reads from that line |
| EnvBackfill.NoDomainIff | operator/src/util/env-migrate.ts:50-75 | the domain counts as missing exactly when there is no DOMAIN= line or the first one holds nothing but quotes |
| EnvBackfill.EmptyDomainAddsNothing | operator/src/util/env-migrate.ts:65-75 | then a file without a definition gains none and the warning condition holds |
| EnvBackfill.BackfillPlace | operator/src/util/env-migrate.ts:76-86 | the comment and the definition go right after the first DOMAIN= line |
| EnvBackfill.RelocateMoves | operator/src/util/env-migrate.ts:119-144 | a single definition below the first DOMAIN= line moves up to it exactly when a line above it uses the variable |
| EnvBackfill.UseForms | operator/src/util/env-migrate.ts:100-108 | a line uses the variable when it mentions it anywhere and is not a comment |
| EnvBackfill.CanonicalPlace | operator/src/util/env-migrate.ts:176-179 | phase 4 rewrites the first line that is exactly the old strategy |
| EnvBackfill.AppendedText | operator/src/util/env-migrate.ts:194-212 | the exact text appended to a file without the three keys, with or without a final line feed |
| EnvBackfill.ReportedPhases | operator/src/util/env-migrate.ts:224-247 | the reported changes are, in order, the phases that changed something, and phase 2 whenever the definition came after a use |
| EnvBackfill.ReportsChanges | operator/src/util/env-migrate.ts:224-247 | a run reports no change exactly when it makes none and no definition comes after a use |
| EnvBackfill.ReportedForNothing | operator/src/util/env-migrate.ts:119-152 | with a use above the first DOMAIN= line and the definition right below it, phase 2 reports a move on every run and moves nothing |
| EnvMigrate.DefinedAfterUseByNumber | operator/src/util/env-migrate.ts:123-127 | comparing the two line numbers decides whether a reference precedes every definition |
| EnvMigrateLaws.RelocateIdempotent | operator/src/util/env-migrate.ts:119-152 | phase 2 alone is idempotent |
| EnvMigrateLaws.MigrateCounts | operator/src/util/env-migrate.ts:224-247 | a run removes exactly one legacy APP_URL line and one prefer_ipv4 line where there are any |
| EnvMigrateLaws.RunCounts | operator/src/util/env-migrate.ts:224-247 | so n runs leave L-n and S-n of them, never below zero |
| EnvMigrateLaws.FixedIffSettled | operator/src/util/env-migrate.ts:224-247 | a file is left alone exactly when no phase has anything to do |
| EnvMigrateRuns.BackfillIdempotent | operator/src/util/env-migrate.ts:58-94 | phase 1 alone is idempotent |
| EnvMigrateRuns.FixIdempotentIff | operator/src/util/env-migrate.ts:156-168 | phase 3 alone is idempotent exactly on files with at most one legacy APP_URL line |
| EnvMigrateRuns.SingboxIdempotentIff | operator/src/util/env-migrate.ts:172-218 | phase 4 alone is idempotent exactly on files with at most one prefer_ipv4 line |
| EnvMigrateRuns.FixCreatesUse | operator/src/util/env-migrate.ts:123-160 | phase 3 makes the definition come after a use exactly when it did before or a legacy URL precedes it |
| EnvMigrateRuns.OneRunIff | operator/src/util/env-migrate.ts:222-247 | one run is idempotent exactly when L <= 1, S <= 1 and the file does not need a second run, a condition read off its lines |
| EnvMigrateRuns.NeverAfterRun | operator/src/util/env-migrate.ts:222-247 | a file that has been through a run never needs a second run in that sense |
| EnvMigrateRuns.RunsExact | operator/src/util/env-migrate.ts:224-247 | for every n >= 1, n runs reach the fixed point exactly when L <= n, S <= n and, for n = 1, the file does not need a second run |
| EnvMigrateRuns.OneRunIsNotEnough | operator/src/util/env-migrate.ts:222-247 | every DOMAIN line, legacy APP_URL line and PANEL_DOMAIN line in this order, the first two no references, settle after two runs and not after one |
| EnvMigrateRuns.OneRunWitness | operator/src/util/env-migrate.ts:222-247 | a concrete three-line file of that kind |
| EnvMigrateRuns.DefinitionBeforeUse | operator/src/util/env-migrate.ts:100-152 | if the first DOMAIN= line has a value and precedes every legacy URL and reference, then at the fixed point PANEL_DOMAIN is defined no later than it is used |
| EnvMeaning.RunsNeeded | operator/src/util/env-migrate.ts:224-247 | the exact number of runs on whole file contents |
| EnvMeaning.NoRunNeeded | operator/src/util/env-migrate.ts:224-247 | a run leaves the content as it is exactly when no phase has anything to do |
| EnvMeaning.ValuesPreserved | operator/src/util/env-migrate.ts:58-218 | on whole file contents, any number of runs keeps the parsed value of every key the migrator does not manage |
| EnvMeaning.MeaningPreserved | operator/src/util/env-migrate.ts:58-218 | the same on lines: PANEL_DOMAIN, APP_URL and the three SINGBOX_DIRECT_* keys are the only ones whose value can change |
| EnvManaged.PanelLostIff | operator/src/util/env-migrate.ts:119-152 | a run takes the last column-0 definition of PANEL_DOMAIN away exactly when the first one comes after a use and there is no DOMAIN= line |
| EnvManaged.PanelAfterRuns | operator/src/util/env-migrate.ts:119-152 | with every definition at column 0, n runs leave all definitions as they were unless phase 2 moves them; then only the first, or none without a DOMAIN= line |
| EnvManaged.PanelValueKept | operator/src/util/env-migrate.ts:119-152 | so the value the parser reads, the last before, is kept exactly when nothing is moved or there is a DOMAIN= line and first and last agree, and the key disappears exactly when it is moved without one |
| EnvManaged.PanelBackfilled | operator/src/util/env-migrate.ts:58-94 | without a definition, a file with a DOMAIN value gets exactly one, and later runs keep it |
| EnvManaged.PanelNeverAdded | operator/src/util/env-migrate.ts:65-75 | without a column-0 definition and without a DOMAIN value its definitions never change |
| EnvManaged.DefaultsDefined | operator/src/util/env-migrate.ts:183-207 | after any run the parser finds all three SINGBOX_DIRECT_* keys |
| EnvManaged.TimeoutAfterRuns | operator/src/util/env-migrate.ts:202-204 | after n >= 1 runs SINGBOX_DIRECT_CONNECT_TIMEOUT keeps its definitions and has gained the default exactly when no line started with it |
| EnvManaged.DelayAfterRuns | operator/src/util/env-migrate.ts:205-207 | the same for SINGBOX_DIRECT_FALLBACK_DELAY |
| EnvManaged.StrategyAfterRuns | operator/src/util/env-migrate.ts:176-201 | once n covers the prefer_ipv4 lines, SINGBOX_DIRECT_DOMAIN_STRATEGY has the values of the lines made canonical, and ipv4_only at the end when no line started with it |
| EnvManaged.AppUrlAfterRuns | operator/src/util/env-migrate.ts:156-168 | once n covers the legacy lines, APP_URL has the values of the rewritten lines and nothing else |
| EnvManaged.FixedValue | operator/src/util/env-migrate.ts:160 | the value the parser reads from a rewritten line is the old one with the variable replaced, comment and blanks after it cut as before |
| Supervisor.Supervisor.ScheduleRestart | singbox-core/src/subcommands/supervise.ts:258-260 | any armed timer is replaced, so one is pending afterwards |
| Supervisor.Supervisor.PollTick | singbox-core/src/subcommands/supervise.ts:286-296 | one tick of the mtime poller is the machine's Poll step |
| Supervisor.Supervisor.PrepareAndValidateConfig | singbox-core/src/subcommands/supervise.ts:174-216 | a version that needs migrating is copied to the runtime path whether or not it then passes the check; the answer is whether it does |
| Supervisor.Supervisor.SpawnSingbox | singbox-core/src/subcommands/supervise.ts:232-254 | a fresh process becomes state.child and reads the prepared path: the live file, or the runtime copy as it is now |
| Supervisor.Supervisor.FireTimer | singbox-core/src/subcommands/supervise.ts:260-268 | the debounce callback up to its await is the machine's Fire step |
| Supervisor.Supervisor.ResumeCallback | singbox-core/src/subcommands/supervise.ts:268-271 | the first suspended callback after killChild is the machine's Complete step: it spawns whatever state.child is by then |
| Supervisor.OneVictimAlways | singbox-core/src/subcommands/supervise.ts:267-269 | all suspended callbacks wait for one process, which is state.child until the first of them resumes |
| Supervisor.QueueAfter | singbox-core/src/subcommands/supervise.ts:258-273 | callbacks resume in firing order: the first k resumptions take the k longest suspended |
| Supervisor.Conservation | singbox-core/src/subcommands/supervise.ts:218-273 | on every interleaving the live children are at most 1 plus the callbacks that resume when state.child is no longer the child they killed |
| Supervisor.StraysComplete | singbox-core/src/subcommands/supervise.ts:267-271 | such a callback leaves the present child running unless it has exited by itself, and no callback leaves any other process behind |
| Supervisor.OrphanedIffOverlap | singbox-core/src/subcommands/supervise.ts:258-273 | on every run that ends with no callback suspended, there is such a callback exactly when some timer found a valid file while another callback was in killChild |
| Supervisor.OneChild | singbox-core/src/subcommands/supervise.ts:258-273 | if no timer finds a valid file during a kill, at most one child lives and it is state.child |
| Supervisor.OverlapRunsTwo | singbox-core/src/subcommands/supervise.ts:258-273 | a run with two overlapping valid callbacks leaves two children |
| Supervisor.NoLostUpdate | singbox-core/src/subcommands/supervise.ts:256-301 | in every reachable state the present file is not yet polled, covered by the pending timer, or read by the last validation |
| Supervisor.QuiescentIsCurrent | singbox-core/src/subcommands/supervise.ts:256-301 | in every quiescent state a valid present config is the one the child read when it started |
| Supervisor.CatchesUp | singbox-core/src/subcommands/supervise.ts:256-301 | from every reachable state with a valid file, the suspended callbacks, one poll, timer and restart reach a quiescent state whose child has read that file |
| Supervisor.FiresNeedTriggers | singbox-core/src/subcommands/supervise.ts:258-296 | on every run the timer fires at most once for each directory event and each poll that found a file with an mtime other than the last one seen, whatever the validations say |
| Supervisor.FiresFromBoot | singbox-core/src/subcommands/supervise.ts:258-296 | the same from boot on, where nothing is armed |
| Supervisor.NoFireWithoutTrigger | singbox-core/src/subcommands/supervise.ts:260-266 | after the timer has fired, on a file that fails the check too, it does not fire again before the next such event or poll |
| Supervisor.StartsWhatItValidated | singbox-core/src/subcommands/supervise.ts:199-254 | a started process reads the version its callback validated exactly when the panel left the file alone in between or, for a migrated version, no validation replaced the runtime copy |
| Supervisor.UnvalidatedStart | singbox-core/src/subcommands/supervise.ts:203-205 | so a config that fails the check is started when it is written during a kill |
| Supervisor.InvalidWritesAddNothing | singbox-core/src/subcommands/supervise.ts:258-265 | while only invalid versions are written, the only processes started are those of callbacks already suspended, in order |
| Supervisor.InvalidWritesChangeNothing | singbox-core/src/subcommands/supervise.ts:258-265 | with no callback suspended, an invalid write and what follows it up to the next valid write never kill or respawn the child |
| Supervisor.Supervisor.constructor | singbox-core/src/subcommands/supervise.ts:341-361 | the boot step with the file at v when validated, a at the spawn, b when watched and c at the first poll |
| Supervisor.BootGap | singbox-core/src/subcommands/supervise.ts:341-361 | an update of the boot is missed exactly when nothing is written once the watch is registered and the file is then not what the child read: v if it was migrated, else a |
| Supervisor.BootUnvalidated | singbox-core/src/subcommands/supervise.ts:344-347 | an unmigrated config written between the validation and the spawn is started without ever being validated |
| Supervisor.IdleUntilEvent | singbox-core/src/subcommands/supervise.ts:351-361 | an idle supervisor keeps running what it runs until the next write or directory event, so a missed update stays missed until then |
| ConfigMigration.ConfigDocument.MigrateLegacyDomainStrategy | singbox-core/src/subcommands/supervise.ts:137-172 | the in-place rewrite turns the document into its migrated form and returns true exactly when something had to change |
| ConfigMigration.ModernIffFixed | singbox-core/src/subcommands/supervise.ts:142-160 | an outbound is left alone exactly when it already has the modern form, and a rewritten one has it |
| ConfigMigration.MigrationFixedPoint | singbox-core/src/subcommands/supervise.ts:137-172 | true exactly when the document changes, and a second call always returns false and changes nothing |
| ConfigMigration.OutboundFrame | singbox-core/src/subcommands/supervise.ts:142-160 | every outbound keeps its place, non-direct ones are untouched and direct ones differ only in the two dial fields |
| ConfigMigration.DnsFrame | singbox-core/src/subcommands/supervise.ts:162-171 | outside outbounds only dns changes, and of it only servers, which gains at most the local server at its end |
| ConfigMigration.ResolverWritten | singbox-core/src/subcommands/supervise.ts:148-169 | a rewritten outbound keeps its resolver with the strategy set, or gets exactly server local-dns and strategy ipv4_only; the document then has a server of that tag |
| ConfigMigration.MigratedPassesDoctor | operator/src/tasks/doctor.ts:172-189 | after migration every direct outbound passes the doctor's dial check |
| ConfigMigration.DoctorExactly | operator/src/tasks/doctor.ts:172-189 | a direct outbound is left alone by the migration exactly when it passes the doctor's check and has no legacy field |
| ConfigMigration.MigratesIff | singbox-core/src/subcommands/supervise.ts:137-172 | a document is rewritten exactly when some direct outbound fails that check or has the legacy field |
| ConfigMigration.DoctorAcceptsLegacy | operator/src/tasks/doctor.ts:172-189 | an outbound that passes the check and is rewritten all the same |
| ConfigMigration.RenderedIsFixedPoint | singbox-core/src/config/render.ts:69-131 | with the ipv4_only strategy (given or by default) every rendered server config is already migrated |
| ConfigMigration.RenderedDial | singbox-core/src/config/render.ts:105-118 | the rendered direct outbound has the given timings or 2s and 100ms, and a resolver that names a server of the document |
| LoginThrottle.AttemptMap.PruneAttempts | apps/api/src/app.ts:198-209 | the delete loop and the eviction loop leave the live entries, the newest 10000 of them |
| LoginThrottle.AttemptMap.BumpAttempts | apps/api/src/app.ts:1177-1190 | a live entry counts one more and keeps its window; otherwise a new window starts |
| LoginThrottle.Throttle.Arrive | apps/api/src/app.ts:1196-1206 | a check prunes both maps and admits the login exactly when neither key is over its limit |
| LoginThrottle.Throttle.RecordFailedLogin | apps/api/src/app.ts:1208-1212 | a rejected login is recorded under both keys |
| LoginThrottle.Throttle.ClearLoginThrottle | apps/api/src/app.ts:1214-1217 | an accepted login clears both keys |
| ThrottleLaws.PruneBound | apps/api/src/app.ts:198-209 | after a prune there are at most 10000 entries, all live; only the oldest-inserted live ones were evicted and only down to the cap |
| ThrottleLaws.RefinesLog | apps/api/src/app.ts:1165-1190 | while the cap does not evict the key's own live entry, every check and every recorded count is a function of the key's failure times since its last success |
| ThrottleLimits.FoldCounts | apps/api/src/app.ts:1177-1190 | the count kept entry by entry is the number of failures in the window open now, read off the list of their times |
| ThrottleLimits.AdmittedIff | apps/api/src/app.ts:182-192 | a login is admitted exactly when fewer than 5 failures count against its IP in the current minute and fewer than 10 against its account in the current 15 minutes |
| ThrottleLimits.GuesserRates | apps/api/src/app.ts:182-192 | one login at a time reaches 9 failures in a minute on an IP and 19 in 15 minutes on an account |
| ThrottleLimits.SetPlace | apps/api/src/app.ts:1177-1190 | a new key goes to the end of the map, a present one keeps its place, and deletion moves no other |
| ThrottleLimits.OldestEvicted | apps/api/src/app.ts:198-209 | with 10000 live entries the next failure of a new key pushes out the entry inserted first |
| ThrottleLaws.PruningInvisible | apps/api/src/app.ts:198-206 | while the cap evicts nothing, the throttle with pruning and the one without admit the same logins and hold the same live counts |
| ThrottleBounds.CountBound | apps/api/src/app.ts:248-276 | with at most m logins between check and record, a key's live count plus those logins never exceeds MAX-1+m; successes and evictions allowed |
| ThrottleBounds.AnyInterval | apps/api/src/app.ts:1177-1190 | a list of failure times whose windows count at most n has at most 2n-1 of them in any half-open interval of one window length |
| ThrottleBounds.IntervalBound | apps/api/src/app.ts:248-276 | so a run without a success on the key or an eviction of its live entry records at most 2(MAX-1+m)-1 failures in any such interval |
| ThrottleBounds.SequentialBound | apps/api/src/app.ts:182-192 | one login at a time: 9 failures per minute and IP, 19 per fifteen minutes and account |
| ThrottleBounds.AttackRecords | apps/api/src/app.ts:248-276 | every list of times that stays within the limit window by window is recorded by some sequential run |
| ThrottleBounds.BoundIsMet | apps/api/src/app.ts:248-276 | for every m some run with at most m logins between check and record does record 2(MAX-1+m)-1 failures within one window length |
| UserStore.AdminStore.InsertUser | packages/db/src/store.ts:708-745 | the checks in order, then the row; an error changes nothing |
| UserStore.AdminStore.ConsumeBootstrapTokenHash | packages/db/src/store.ts:331-344 | missing, used and expired tokens are refused in this order; otherwise the token is marked used |
| UserStore.AdminStore.CreateFirstOwner | packages/db/src/store.ts:175-195 | the transaction: token spent and owner present on success, both tables as before on any error, also one raised after the token was spent |
| UserStore.AdminStore.UpdateUser | packages/db/src/store.ts:197-256 | the checks in order, then the changed row |
| UserStore.AdminStore.AssertLastOwnerPreserved | packages/db/src/store.ts:747-759 | it throws exactly when the target is an active owner, would stop being one, and there is no second |
| UserStore.AdminStore.DeleteUser | packages/db/src/store.ts:283-295 | the checks in order, then the row is gone |
| OwnerLaws.OwnerPersists | packages/db/src/store.ts:171-295 | over every run of store operations, once an active owner exists one always exists |
| OwnerLaws.LastOwnerExactly | packages/db/src/store.ts:747-759 | the last-owner check refuses exactly the changes that would leave no active owner |
| OwnerLaws.BootstrapOnce | packages/db/src/store.ts:175-195 | createFirstOwner succeeds at most once on any run from any store |
| OwnerLaws.SpentIffCommitted | packages/db/src/store.ts:175-195 | exactly when a bootstrap commits, and that the token is spent and one active owner added then and nothing changes otherwise |
| OwnerLaws.TokenSpentOnce | packages/db/src/store.ts:305-350 | unless its hash is issued again a token is spent at most once, pruning and direct consumption included |
| OwnerLaws.RankProtects | packages/shared/src/index.ts:159-245 | without a step by an owner, the command line or bootstrap, no admin or owner row changes, no owner row appears and no row is deleted |
| OwnerLaws.OwnersComeFromOwners | packages/db/src/store.ts:708-713 | a row that became an owner did so in a step of the run that was made by an owner, the command line or bootstrap and wrote that row |
| OwnerLaws.OwnerMaker | packages/db/src/store.ts:197-207 | when actors have the role of their active row, an owner row is made by bootstrap, the command line or somebody who has an owner row |
| OwnerLaws.FirstOwnerIsFounded | packages/db/src/store.ts:171-195 | so in a store without owners the first owner row comes from bootstrap or the command line |
| OwnerLaws.RowsWellFormed | packages/db/src/store.ts:197-256 | emails and usernames stay unique and a row has a disabling time exactly while disabled |
| OwnerLaws.DisableIff | packages/db/src/store.ts:258-260 | disabling succeeds exactly for an actor of sufficient rank on a row that is not the only active owner |
| OwnerLaws.DisableThenEnable | packages/db/src/store.ts:258-264 | enabling undoes disabling, and disabling twice keeps the first time |
| UserEdits.UpdateAccepted | packages/db/src/store.ts:197-256 | exactly when an update is accepted, and that it writes each given field, keeps each absent one and touches no other row |
| UserEdits.UpdateErrors | packages/db/src/store.ts:197-256 | every refusal names a defect the request has |
| UserEdits.DeleteAccepted | packages/db/src/store.ts:283-295 | exactly when a deletion is accepted, and that only that row goes |
| UserEdits.InsertAccepted | packages/db/src/store.ts:708-745 | exactly when a user is inserted, and the row that is then there |
| UserEdits.PruningSafe | packages/db/src/store.ts:346-350 | pruning removes exactly the tokens that cannot be spent, now or later |
| UserEdits.TokenIssued | packages/db/src/store.ts:305-350 | a token can be issued while there is no owner, can then be spent until it expires, and issuing it leaves every other token as spendable as it was |
| UserEdits.NoTokenWithOwner | packages/db/src/store.ts:309-314 | with an active owner none is issued |
| AccountStore.AccountTable.CreateProxyAccount | packages/db/src/store.ts:394-427 | a validated row at the head of the listing, or an error and no change |
| AccountStore.AccountTable.UpdateProxyAccount | packages/db/src/store.ts:429-464 | the row with the edit laid over it and renormalised, or an error and no change |
| AccountStore.AccountTable.RegenerateProxyUuid | packages/db/src/store.ts:470-493 | fresh UUID and secret; the old UUID becomes the previous one until ten minutes later |
| AccountStore.AccountTable.DeleteProxyAccount | packages/db/src/store.ts:495-502 | the row is gone, or an error and no change |
| AccountStore.BuildServerRenderAccounts | apps/api/src/core-boundary.ts:157-182 | the loop, which reads each row a second time by id, yields the contributions of the rows in order, or the placeholder |
| AccountLaws.RunSane | packages/db/src/store.ts:394-502 | ids, usernames, secrets and all current and previous UUIDs stay pairwise distinct, and expiries are dates |
| AccountEdits.CreateWrites | packages/db/src/store.ts:394-427 | exactly when a creation is refused; otherwise the first row has the drawn id, UUID and secret, the given fields and the defaults, and the others follow unchanged |
| AccountEdits.UpdateWrites | packages/db/src/store.ts:429-464 | exactly when an update is refused; otherwise the row found under the id has each given field, keeps each absent one, loses a blanked expiry, and no other row changes |
| AccountEdits.UpdateUnknown | packages/db/src/store.ts:429-431 | an update reports an unknown account exactly when no row has a valid id equal to the given one |
| AccountEdits.EditErrors | packages/db/src/store.ts:861-893 | every refusal names a defect the request has |
| AccountEdits.ExpiryEnds | packages/db/src/store.ts:876-882 | an expiry given to a create or update holds over all later runs that do not replace it: from that time on no UUID of the account is rendered and it is not served, before it exactly while enabled |
| AccountEdits.RenderNames | apps/api/src/core-boundary.ts:157-182 | the render list is the placeholder alone exactly when no account is enabled and unexpired, and otherwise holds current UUIDs under the account name and UUIDs in grace under the name with -prev |
| AccountEdits.IdPatterns | packages/security/src/index.ts:283-291 | the three patterns of validateId accept exactly what the first accepts |
| AccountLaws.ProtocolFilterVacuous | packages/db/src/helpers.ts:6-19 | whatever the column holds, both protocol readers end up including vless_reality |
| AccountLaws.RenderedIsUsable | apps/api/src/core-boundary.ts:157-182 | in every reachable state the rendered list is non-empty and repeats no UUID |
| AccountLaws.EligibilityCompared | apps/api/src/app.ts:931-945 | on any row with a valid id: what the endpoint serves is rendered, and the only rows rendered but not served are enabled ones whose expiry is no date |
| AccountLaws.EligibilityAgrees | apps/api/src/app.ts:931-945 | in reachable states a UUID is served exactly when it is rendered, at any one clock value |
| AccountLaws.GraceWindow | apps/api/src/core-boundary.ts:148-153 | after a rotation at t and any operations that leave the account in place, the old UUID is rendered exactly while the account is active and now < t + 10 minutes |
| AccountLaws.GoneForGood | apps/api/src/core-boundary.ts:148-153 | the second rotation drops the UUID the first one replaced, and deletion every UUID of the account, from all later render lists |
| AccountLaws.PauseHides | packages/db/src/store.ts:466-468 | disabling an account takes all its UUIDs out of the render list at every time |
| AccountLaws.PauseThenResume | packages/db/src/store.ts:466-468 | enabling it again gives the render list back as it was |
| SubscriptionTokens.ResolvesIff | packages/db/src/store.ts:671-690 | a token resolves to a row exactly when its text is the row's id, a dot and the row's current signature, up to its end or a further dot |
| SubscriptionTokens.IdAlphabet | packages/security/src/index.ts:287-291 | ids are written in the alphabet of base64url |
| SubscriptionTokens.TokenText | packages/db/src/store.ts:659-669 | a token says the id, a dot and the signature of id and secret, or of the id alone without a secret |
| SubscriptionTokens.TokenRoundTrip | packages/db/src/store.ts:659-690 | the token of any account in the table resolves to that account |
| SubscriptionTokens.TokenLasts | packages/db/src/store.ts:659-690 | and keeps doing so on every run that neither rotates nor deletes it |
| SubscriptionTokens.RotationRevokes | packages/db/src/store.ts:470-493 | after a rotation or deletion the old token resolves to nothing on every later run; after a rotation the new one resolves |
| ProfileUrl.ToUrl | core/ct-protocol/src/profile.rs:127-143 | the appended string is the URL with the port in canonical decimal |
| ProfileUrl.UrlParses | core/ct-protocol/src/profile.rs:67-123 | what any text of the form scheme, user, password, host and port parses to, each defect with its error, blanks around it ignored |
| ProfileUrl.PortSpellings | core/ct-protocol/src/profile.rs:112 | a port may carry one plus sign and leading zeros and must be below 65536 |
| ProfileUrl.OtherSchemes | core/ct-protocol/src/profile.rs:68-80 | the plain-text scheme is refused as unsupported and anything else as no scheme |
| ProfileUrl.WhiteSpace | core/ct-protocol/src/profile.rs:68 | the characters trimmed, one by one |
| ProfileUrl.ParsesIff | core/ct-protocol/src/profile.rs:67-123 | the parser returns p exactly for the texts whose trimmed form spells p, which is printable, with any accepted spelling of its port |
| ProfileUrl.RoundTripIff | core/ct-protocol/src/profile.rs:67-143 | parsing the printed profile gives it back exactly when the username is safe, the password non-empty without @, the host non-empty, the port not 0 and there is no label |
| ProfileUrl.ParsedRoundTrips | core/ct-protocol/src/profile.rs:67-143 | every profile the parser returns survives printing and parsing |
| ProfileUrl.PrintsInput | core/ct-protocol/src/profile.rs:125-143 | printing a parsed profile gives the trimmed input exactly when its port text had no sign and no leading zero |
| ProfileUrl.DecimalOfValue | core/ct-protocol/src/profile.rs:141 | digits without a leading zero are what the printer writes for their value |

## Left out

- `.env` text with CR, U+2028 or U+2029: the line patterns see these as line ends and the splitting on newlines does not, so the type `Text` excludes them.
- Primality of 2^255 - 19 is a hypothesis; of the group law, the tangent and chord constructions are proved and associativity is not.
- WebCrypto key generation, and `>> t` on big integers, which is division by 2^t in the model.
- X25519 inputs other than 32-byte scalars: the source has no other caller.
- Supervisor: a validation reads one version of the file atomically, a started process reads its config in the moment it is spawned, mtimes strictly increase with every write, the callbacks that wait for one process resume in the order they fired and without a timer in between, and signals and the health endpoint are absent.
- Config migration: documents are trees, so two outbounds that are the same object are not modelled.
- Rendering: `renderServerConfig` is modelled only as far as the migration reads it; its key order and the client config are not.
- Throttle: keys are given strings; hashing of emails and the trust in forwarded addresses are not modelled, and the clock does not run backwards.
- User rows: password hashes, sessions, timestamps other than disabledAt, the forced-rotation flag and the audit log are absent, and normalizers appear only as accepting or rejecting a field.
- Bootstrap tokens: a token is identified by its hash, and `createBootstrapToken` is two steps, before and after its await.
- Proxy accounts: labels and local ports are checked but not stored, rows created in the same millisecond list newest first, random ids, UUIDs and secrets never repeat, and status and grace are read at one clock value.
- Subscription endpoint: the server settings it also requires are taken as present, and the response body is absent.
- Subscription tokens: the HMAC is a function that writes hexadecimal digits and, for revocation, is injective; a non-ASCII byte of a token decodes to one replacement character; foreign characters in base64 are skipped and padding ends it.
- Placeholder UUID: a fresh UUID is assumed to differ from it.
- Profile URLs: serialisation by serde.
- `renderTemplate`, `caddyfileValidate`, `redactSensitive`, the permission tables and the argument parsers: each is settled by reading one function.
- Installation, Docker, SQL, filesystem, network, web pages, password hashing and better-auth.
