# AdminPanelAZ: a Dafny model of the proxy agent and of the startup migrations

The project models the parts of AdminPanelAZ that change shared state step by step and may be cut short:

* the **proxy agent** (`backend/proxy_agent/`): reading the nat rules that `iptables-save` prints, finding and
  rewriting the proxy.sh DESTINATION in them, planning `-D`/`-A` commands for it and for the AmneziaWG 2.0 and 3.0
  failover fronts, running such a plan and undoing it when a step fails, healing the DOCKER-USER chain, parsing
  conntrack output;
* the **startup migrations** (`backend/app/database.py`, `backend/app/cidr_database.py`): the re-entrant lock across
  workers, the rebuild of `vpn_configs` in a transaction, de-duplication before unique indexes, the one-shot deadline
  backfill, the move of the provider rows to a second database;
* the **restore** of a backup (`backend/app/routers/backups.py`, `backend/app/services/background_gate.py`): pausing
  background work, replacing the panel files, restarting.

`dafny verify dfyconfig.toml` checks the whole project.

## How the model is laid out

| files | content |
|---|---|
| `Words`, `Ipv4` | characters, words and addresses: the parts of `re`, `str` and `ipaddress` that are used |
| `Spelling` | the spellings in which iptables takes and iptables-save prints one rule |
| `RulesText`, `Substitution` | the saved text and the rewrite, on words and on characters |
| `Detect`, `DetectCase`, `DetectLimits` | DESTINATION detection, the part that case plays in it, and inputs that show its conditions are needed |
| `ProxyRules` | the rules of proxy.sh word by word |
| `NatTable`, `NatRuns`, `NatIsolation` | the nat table and the executor with rollback, what its runs keep and leave, rules a plan does not name |
| `DestinationPlan`, `DestinationRun`, `DestinationStatus` | the DESTINATION plan, its run on the saved table, the status afterwards |
| `Fronts`, `FrontRules`, `FrontRuns` | failover fronts: rules and plans, what detection finds, whole runs |
| `FrontCommands`, `FrontSpellings` | the commands of a front word by word, and how its MASQUERADE rule is printed |
| `FrontProgress`, `FrontOverlap` | when requests of fronts go through, requests whose commands interleave |
| `SharedTable` | a front in the table whose DESTINATION is changed |
| `ProxyAgent` | the handlers |
| `MigrationLock`, `ConfigRebuild`, `Dedupe`, `Redemptions`, `PortalTokens`, `DeadlineBackfill`, `CidrMove` | migrations |
| `RestoreGate`, `DockerUser`, `Conntrack` | restore, self-heal, conntrack |

Modelling decisions:

* A line is its words with the separators between them. Every pattern of the agent separates its literals by `\s+`
  only, so each pattern is a condition on consecutive words; the look-arounds `(?!\d)` and `(?<!\d)` are conditions on
  characters inside a word. For the rewrite this is proved: `Substitution` defines `re.sub` as a left-to-right scan of
  the characters and shows that it gives the same line.
* The nat table is one sequence of rules in which each chain is a sub-sequence. Nothing that is proved depends on the
  order between chains. A rule is the sequence of its words in one spelling; `Spelling.Meaning` says which words stand
  for the same rule: `-p udp` with or without `-m udp`, `-d` with or without `/32`, `-d` before or behind `-p`, and in
  the output of iptables-save a comment bare or in double quotes. In a command the quotes are part of the comment,
  because the agent passes arguments without a shell.
* The environment is a function from the number of a call to what happens to it: success, an error code, an exception
  that the code catches (FileNotFoundError or a timeout), one that it does not catch (any other OSError), and for
  databases the death of the process. A failed call has no effect. Where a theorem needs part of the environment to be
  quiet, such as an undisturbed rollback, its hypothesis says so.
* Concurrency (the migration lock, the restore gate, overlapping requests of fronts) is a transition system over all interleavings; a behaviour is any
  sequence of its steps.
* Time is an integer, a SQL table is a map from primary key to row or a sequence of rows.

Where the code and its own words differ, the model follows the code:

* The comment in `iptables_dest.py` says that a front's rules are found only by their own tag. The test is a substring
  test, so a label also answers for every longer label that starts with it (`FrontRules.PrefixClaims`); the consequence
  is stated in `FrontProgress.PrefixBlocks` and `FrontProgress.UndisturbedMovesIff`. Safety of the rules does not need prefix-free labels (`FrontRuns.RunKeepsPairs`).
* `IptablesApplyError` carries the rollback errors only when the failing call returned a code. When it raised, they are
  dropped and the error looks as if the rollback had succeeded (`NatRuns.UnavailableHidesErrors`,
  `NatRuns.EmptyErrorsIff`).
* `apply_iptables_plan` promises a best-effort rollback, but an exception other than FileNotFoundError and a timeout
  leaves it without one, or halfway through it (`NatRuns.AllOrNothingIff`). A switch cut there can leave a front with a
  MASQUERADE rule and no DNAT rule (`FrontProgress.UncaughtSplitsPair`, `FrontProgress.RequestWholeIff`).
* "Exactly one destination is ever live" holds for requests of one front that do not overlap
  (`FrontOverlap.OverlapKeepsPairs`); the handlers have no lock, and two switches of an uninstalled front that overlap
  leave two (`FrontOverlap.OverlapBreaks`).
* The rebuild of `vpn_configs` goes by the stored active node without asking whether it exists. If it has been deleted,
  one client that no scan lists makes every start fail (`ConfigRebuild.StaleActiveForever`). A rebuild that goes through
  deletes all tag links with the rows of the old table (`ConfigRebuild.LinksLost`).
* The one-shot marker is part of the database, so the restore of a backup without it makes the next start run the
  backfill again (`DeadlineBackfill.OneShotIff`).
* `_line_to_iptables_args` promises tokens without quotes but keeps them. So a DESTINATION plan goes through exactly when
  no rule it changes is printed in quotes (`DestinationRun.PlanFindsItsRules`), and a front that forwards to the current
  DESTINATION blocks its change (`SharedTable.QuotedFrontBlocks`).
* The self-heal takes an error exit of `iptables -C` for a missing rule and does not look at the exit of `-I`. So it may
  insert a rule twice (`DockerUser.NothingTwiceIff`) and may report an insert that failed
  (`DockerUser.ChangedIsTrueIff`).
* Detection ignores case and stops after three digits of the last group, the rewrite does not. So detection after a
  rewrite reports the new address exactly when the old one had been read exactly (`Detect.DetectAfterRewrite`), and a
  destination can be reported for a proxy that counts as not installed (`DetectLimits.DetectedNotInstalled`).
* Positional pairing can pair a rule with another rule's rewrite; `DestinationPlan.PairingIsPerLine` gives the exact
  condition.
* The provider move is described as a one-time copy; a crash between its two commits is never resumed
  (`CidrMove.CrashBetweenCommitsStays`), though no row is lost.

## Model

| member | source | states |
|---|---|---|
| `Ipv4.ParseIff` | backend/proxy_agent/iptables_dest.py:49-55 | the accepted texts are exactly the destination addresses (four octets without leading zeros, not unspecified, multicast or loopback) with ASCII white space around them, and each is read as that address |
| `Ipv4.DestinationIff` | backend/proxy_agent/iptables_dest.py:49-55 | a destination address is four decimal numbers up to 255, the first not 127 and not 224 to 239, not all zero |
| `Ipv4.AddressUnique` | backend/proxy_agent/iptables_dest.py:123-137 | no word starts with two different addresses, so 10.0.0.1 is never found in 10.0.0.10 |
| `RulesText.RewriteDestinationRules` | backend/proxy_agent/iptables_dest.py:116-139 | the loop over the lines computes the rewrite of every rule line; it fails exactly on an invalid address |
| `RulesText.RewriteAt` | backend/proxy_agent/iptables_dest.py:128-137 | the two substitutions together replace exactly the words that start with the old address behind a destination keyword, whatever the first one changed |
| `RulesText.GuardNeverSuppresses` | backend/proxy_agent/iptables_dest.py:127-137 | the whole-address test in front of the substitutions never suppresses a replacement |
| `RulesText.RewriteIdempotent` | backend/proxy_agent/iptables_dest.py:116-139 | rewriting twice is rewriting once, for every text |
| `RulesText.RewriteBackRestores` | backend/proxy_agent/iptables_dest.py:116-139 | rewriting back restores the exact text if and only if the new address was not already a destination in it |
| `RulesText.NeighbourUntouched` | backend/proxy_agent/iptables_dest.py:123-137 | a word that starts with any other address keeps all its characters |
| `RulesText.NamesOnlyItself` | backend/proxy_agent/iptables_dest.py:111-113 | an address with its port or mask behind it is found as that address and no other: 10.0.0.1 neither in 10.0.0.10 nor in 110.0.0.1 |
| `Substitution.SubIsPass` | backend/proxy_agent/iptables_dest.py:128-137 | `re.sub` as a left-to-right scan of the characters is the word-by-word substitution |
| `Substitution.RewriteOnCharacters` | backend/proxy_agent/iptables_dest.py:128-137 | the two scans of a line's characters give the characters of the line whose words are rewritten |
| `Detect.DetectProxyDestination` | backend/proxy_agent/iptables_dest.py:70-97 | the two loops report the address of the first DNAT rule on a known port, else of the first SNAT rule with `-d` |
| `Detect.FoundFirstDnat` | backend/proxy_agent/iptables_dest.py:70-91 | the first DNAT rule that is read decides |
| `Detect.FoundFirstSnat` | backend/proxy_agent/iptables_dest.py:93-97 | without one, the first SNAT rule that is read |
| `Detect.NothingFound` | backend/proxy_agent/iptables_dest.py:70-97 | and without either nothing is reported |
| `Detect.DnatSearch` | backend/proxy_agent/iptables_dest.py:34-37 | the pattern search finds the leftmost port with a target behind it, and the nearest target |
| `DetectCase.CaseIgnored` | backend/proxy_agent/iptables_dest.py:34-108 | texts whose words differ in case alone have the same destination and are installed alike, `--dport` as it is printed excepted |
| `ProxyRules.DnatDetectedIff` | backend/proxy_agent/iptables_dest.py:17-108 | a DNAT rule of proxy.sh is read, with the address of its target, exactly on the twelve listen ports, and then counts as installed |
| `ProxyRules.TargetFirstDetectedIff` | backend/proxy_agent/iptables_dest.py:83-88 | the same for a rule that names its target in front of its port, which only the second pattern reads |
| `ProxyRules.SnatDetected` | backend/proxy_agent/iptables_dest.py:42-45 | its SNAT rule is read by its destination and counts as installed |
| `ProxyRules.SnatWordIff` | backend/proxy_agent/iptables_dest.py:42-45 | the target word is read as SNAT exactly when it is that, in any case, with nothing or a character that is not part of a word behind it |
| `ProxyRules.NetWordIff` | backend/proxy_agent/iptables_dest.py:42-45 | a destination is read with or without a numeric mask |
| `ProxyRules.DnatRewritten` | backend/proxy_agent/iptables_dest.py:128-132 | the rewrite replaces exactly the address of the target of the DNAT rule |
| `ProxyRules.SnatRewritten` | backend/proxy_agent/iptables_dest.py:133-137 | and exactly the destination of the SNAT rule, never its source |
| `ProxyRules.OtherLinesStay` | backend/proxy_agent/iptables_dest.py:63-67 | only rule lines are rewritten or read |
| `Detect.DetectAfterRewrite` | backend/proxy_agent/iptables_dest.py:70-139 | if detection reports a valid old address, detection on the rewritten text reports the new one if and only if the old one had been read exactly, through the DNAT path and the SNAT fallback alike |
| `Detect.InstalledStays` | backend/proxy_agent/iptables_dest.py:100-139 | the rewrite never changes the installed flag |
| `Detect.DetectedImpliesInstalled` | backend/proxy_agent/iptables_dest.py:70-108 | with port flags in lower case, as iptables-save prints them, a detected destination means installed |
| `Detect.DetectedNotInstalledIff` | backend/proxy_agent/iptables_dest.py:70-108 | for every text: exactly when a destination is reported for a proxy that counts as not installed |
| `Detect.DetectedRuleInstalledIff` | backend/proxy_agent/iptables_dest.py:73-108 | a rule whose address is read counts as installed if and only if it is an SNAT rule or its first port flag in lower case has a known port |
| `Detect.OneFlagDecides` | backend/proxy_agent/iptables_dest.py:73-108 | with one port flag that means that the flag is in lower case |
| `DetectLimits.DetectCutShort` | backend/proxy_agent/iptables_dest.py:34-41 | every address with a fourth digit in its last group is reported cut short and not read exactly |
| `DetectLimits.CutLength` | backend/proxy_agent/iptables_dest.py:34-41 | 10.0.0.1234 is such an address: ten of its characters are read |
| `DetectLimits.DetectedNotInstalled` | backend/proxy_agent/iptables_dest.py:73-108 | with any flag that is not in lower case a destination is reported for a proxy that counts as not installed |
| `NatTable.InvertIptablesArgv` | backend/proxy_agent/iptables_dest.py:189-199 | the loop flips the first `-A` or `-D` and fails when there is none |
| `NatTable.InvertTwice` | backend/proxy_agent/iptables_dest.py:189-199 | inversion is an involution on every command it accepts |
| `NatTable.InvertedParsed` | backend/proxy_agent/iptables_dest.py:189-199 | the inverted nat command is the inverse operation on the same rule |
| `NatTable.Host.Run` | backend/proxy_agent/iptables_dest.py:349-357 | one call: append, delete the first equal rule or fail without effect; the fault decides between code, caught and uncaught exception |
| `NatRuns.CommandDoes` | backend/proxy_agent/iptables_dest.py:349-357 | by its words, `-A` puts the rule at the end, `-D` needs it and fails without it, and a failed call does nothing |
| `NatRuns.RemoveFirstIs` | backend/proxy_agent/iptables_dest.py:349-357 | `-D` takes out the first equal rule and leaves all others in their places |
| `NatRuns.ApplyRecorded` | backend/proxy_agent/iptables_dest.py:349-392 | every call of a run leaves its table in the history, whatever is behind it |
| `NatTable.Host.RollbackApplied` | backend/proxy_agent/iptables_dest.py:368-392 | the reverse pass over the applied commands, with every table it goes through, the errors it collects, and the exception that may end it |
| `NatTable.Host.ApplyIptablesPlan` | backend/proxy_agent/iptables_dest.py:333-365 | the forward pass, the rollback at the first failure, and the error that is raised, or an uncaught exception without rollback |
| `NatRuns.RollbackRestores` | backend/proxy_agent/iptables_dest.py:368-392 | for any table and plan: undisturbed rollback commands all find their rule, and if none fails the original multiset of rules is back through tables the plan had passed |
| `NatRuns.ApplyLeaves` | backend/proxy_agent/iptables_dest.py:333-392 | every run whose rollback meets no fault but uncaught exceptions leaves the rules as the commands in effect make them, and passes only tables of the plan |
| `NatRuns.AllOrNothingIff` | backend/proxy_agent/iptables_dest.py:349-392 | such a run ends with all commands in effect or none if and only if no call after the first one meets an exception the executor does not catch |
| `NatRuns.ApplyRestores` | backend/proxy_agent/iptables_dest.py:333-392 | every run with an undisturbed rollback and no such exception after its first call ends in the planned table or with the original rules |
| `NatRuns.AppliedIsAfter` | backend/proxy_agent/iptables_dest.py:349-365 | whatever the environment does, a normal return means that every command found its rule and the planned table is there |
| `NatRuns.NoErrorsMeansRestored` | backend/proxy_agent/iptables_dest.py:356-364 | whatever the environment does, an error after an exit code without rollback errors means that the original rules are back |
| `NatRuns.AllErrors` | backend/proxy_agent/iptables_dest.py:376-392 | when every rollback call fails, the errors name the inverse of every applied command, the last one first |
| `NatRuns.UnavailableHidesErrors` | backend/proxy_agent/iptables_dest.py:350-354 | for every plan and step: when iptables becomes unavailable there, the rules stay as the steps before left them and the error carries nothing |
| `NatRuns.EmptyErrorsIff` | backend/proxy_agent/iptables_dest.py:349-392 | an error without rollback errors assures restoration in every environment if and only if the failing call returned a code or was the first one |
| `NatRuns.LaterApply` | backend/proxy_agent/iptables_dest.py:333-392 | a run depends on the past of the host only through the table it finds |
| `NatIsolation.ApplySpares` | backend/proxy_agent/iptables_dest.py:333-392 | in every outcome, rollback failures included, all tables of a run show the rules that no command names in the same order |
| `DestinationPlan.PlanDestinationRewrite` | backend/proxy_agent/iptables_dest.py:151-186 | the plan pairs old and new lines positionally or per line and fails exactly on invalid or equal addresses |
| `DestinationPlan.BareIsStripped` | backend/proxy_agent/iptables_dest.py:63-67 | the plan works on the stripped characters of the rule lines |
| `DestinationPlan.IsRuleByChars` | backend/proxy_agent/iptables_dest.py:63-67 | rule lines are those whose stripped characters start with `-A` and a blank |
| `DestinationPlan.PlanShape` | backend/proxy_agent/iptables_dest.py:177-186 | a plan is pairs of commands: `-D` with the words of a saved rule that names the old address, then `-A` with other words |
| `DestinationPlan.PlanEmptyIff` | backend/proxy_agent/iptables_dest.py:151-186 | exactly when there is nothing to do |
| `DestinationPlan.PairingIsPerLine` | backend/proxy_agent/iptables_dest.py:161-175 | the pairs are the per-line ones if and only if it is not the case that the rules naming only the new address are as many as the old rules without a clean rewrite, and more than none |
| `DestinationRun.PlanFindsItsRules` | backend/proxy_agent/iptables_dest.py:142-186 | every `-D` finds its rule on the table the text was saved from, duplicates included and however lines were paired, if and only if no rule that the plan changes is printed in quotes |
| `DestinationRun.PlanNeverDoubles` | backend/proxy_agent/iptables_dest.py:177-186 | a rule and its replacement are never in the table at the same time |
| `DestinationRun.PlanRewritesTable` | backend/proxy_agent/iptables_dest.py:151-186 | the final multiset of rules is exactly the per-rule rewrite if and only if every line was paired with its own rewrite, with the condition of `PairingIsPerLine` |
| `DestinationRun.RewriteSparesOthers` | backend/proxy_agent/iptables_dest.py:151-186 | in every outcome the rules naming neither address keep their order |
| `DestinationStatus.StatusAfterChange` | backend/proxy_agent/main.py:303-331 | if all known-port DNAT rules forward to the old address and lines are paired with their own rewrites, any listing of the resulting table reports the new address |
| `SharedTable.QuotedFrontBlocks` | backend/proxy_agent/iptables_dest.py:142-186 | while a front forwards to the current DESTINATION and its comment is printed in quotes, no change of the DESTINATION goes through, whatever the environment does |
| `SharedTable.QuotedFrontWitness` | backend/tests/test_proxy_agent_failover.py:43 | such a text and table: one front's rule as iptables-save prints it |
| `FrontRules.ShownIsSaved` | backend/tests/test_awg3_front_ports.py:19-23 | the spellings with and without `-m udp` and quotes all show the front's rule |
| `FrontRules.SavedDnat` | backend/proxy_agent/iptables_dest.py:259-265 | and there are no others |
| `FrontSpellings.ShownMasqIsSaved` | backend/tests/test_awg3_front_ports.py:26-30 | with or without mask, module and quotes, the address in front of or behind the protocol: each line shows the front's MASQUERADE rule |
| `ProxyAgent.PutDestination` | backend/proxy_agent/main.py:303-331 | exactly when each answer is given; the plan is run exactly when there is something to do, always for a current address that is read exactly, and then leaves what the executor leaves; undisturbed and with nothing quoted it goes through |
| `ProxyAgent.ServeFront` | backend/proxy_agent/main.py:374-455 | at any point of the life of a host the front handlers do what the run theorems speak about |
| `Fronts.Awg2Accepted` | backend/proxy_agent/iptables_dest.py:217-232 | a request is accepted exactly if it spells a label of 1 to 64 lower-case letters, digits, `-` and `_` that starts with a letter or digit, in any case and with white space around it, with ports from 1 to 65535; it is for the front with that label, a missing or zero backend port meaning the front port |
| `Fronts.Awg3Accepted` | backend/proxy_agent/iptables_dest.py:217-223 | the same for the port range: accepted exactly if it spells such a label |
| `Fronts.FrontDestinationFirst` | backend/proxy_agent/iptables_dest.py:243-251 | the status is what the first line gives that gives anything |
| `FrontCommands.RequestCommands` | backend/proxy_agent/iptables_dest.py:259-322 | the commands of a request, word by word: the pair for the reported address is deleted, then the pair for the wanted one appended; clients come in on the front port, the target and the MASQUERADE rule have the backend port, both as decimal numbers, and for AWG 3 all are the range |
| `FrontCommands.NoCommandsIff` | backend/proxy_agent/iptables_dest.py:297-317 | a request has no command exactly when the reported address is the wanted one |
| `FrontCommands.ReadNeeds` | backend/proxy_agent/iptables_dest.py:239-251 | a line that gives an address to a front is a rule that has PREROUTING, DNAT and its comment |
| `FrontCommands.RangeRead` | backend/proxy_agent/iptables_dest.py:406-425 | AWG 3 reads a target exactly when the port range is behind its address, whatever follows the range |
| `FrontRules.CommentOccurs` | backend/proxy_agent/iptables_dest.py:235-247 | the comment test of a front accepts another front's comment, bare or quoted, if and only if the family is the same and the label is a prefix |
| `FrontRules.OwnDetected` | backend/proxy_agent/iptables_dest.py:239-276 | a front reads its own address from every line that shows its DNAT rule, in each spelling |
| `FrontRules.FamiliesApart` | backend/proxy_agent/iptables_dest.py:395-425 | the AWG 2 and AWG 3 families never read each other's rules, for any valid labels and spellings |
| `FrontRules.PrefixClaims` | backend/proxy_agent/iptables_dest.py:239-251 | within a family a front reads another front's rule if and only if its label is a prefix of the other |
| `FrontRuns.PlanPasses` | backend/proxy_agent/iptables_dest.py:279-322 | at every point of a switch or teardown plan at most one DNAT rule of the front is there, and at the end exactly the wanted pair |
| `FrontRuns.HandleKeepsFront` | backend/proxy_agent/iptables_dest.py:279-392 | one request leaves its front with no rules or one pair for one address, moved only if the plan went through, and no table on the way, rollback included, has two live DNAT rules |
| `FrontRuns.HandleKeepsOthers` | backend/proxy_agent/iptables_dest.py:279-392 | one request leaves every front with another comment as it was |
| `FrontRuns.HandleSparesForeign` | backend/proxy_agent/iptables_dest.py:203-215 | in every outcome the rules that do not carry exactly the front's comment keep their order |
| `FrontRuns.RunKeepsPairs` | backend/proxy_agent/iptables_dest.py:239-392 | after any sequence of switches and teardowns of any labels with fixed ports, plan steps failing anywhere in a way the executor catches and rollbacks undisturbed, every front has no rules or exactly one DNAT and one MASQUERADE rule naming the same address |
| `FrontRuns.RunNeverTwoLive` | backend/proxy_agent/iptables_dest.py:282-291 | in such a run no intermediate table has two live DNAT rules for the front being switched |
| `FrontRuns.DetectIsExact` | backend/proxy_agent/iptables_dest.py:239-256 | if no other rule answers for a front, its status reports exactly where its rules point, from any listing |
| `FrontRuns.RunRefines` | backend/proxy_agent/iptables_dest.py:239-473 | a run of prefix-free fronts refines the abstract one that follows the replies: at every point the rules and the status of each front name the address of its last applied request |
| `FrontProgress.UndisturbedApplies` | backend/proxy_agent/main.py:374-455 | if the status is right and nothing is made to fail, a request with a valid address goes through and its front points there |
| `FrontProgress.UndisturbedMovesIff` | backend/proxy_agent/iptables_dest.py:239-322 | an undisturbed request leaves its front where it wants it if and only if the status had been right or the front was there already |
| `FrontProgress.MisreadChangesNothing` | backend/proxy_agent/iptables_dest.py:296-306 | when detection reports an address the front does not point to, the table is left alone, and the answer is that of an applied switch exactly if the reported address is the wanted one |
| `FrontProgress.PrefixBlocks` | backend/proxy_agent/iptables_dest.py:246-306 | while a longer label is installed, no switch of an uninstalled label that is its prefix changes the table; a switch to the other label's address is answered as applied although nothing is installed |
| `FrontProgress.RequestWholeIff` | backend/proxy_agent/iptables_dest.py:279-392 | with uncaught exceptions anywhere, a front is left with no rules or one pair if and only if an even number of its commands is in effect |
| `FrontProgress.UncaughtSplitsPair` | backend/proxy_agent/iptables_dest.py:349-354 | an input that leaves the MASQUERADE rule without its DNAT rule |
| `FrontOverlap.StepIsExecutor` | backend/proxy_agent/iptables_dest.py:333-392 | taken call by call a request does what the executor does |
| `FrontOverlap.OverlapKeepsPairs` | backend/proxy_agent/main.py:374-455 | however the calls of requests interleave, as long as those of one front do not overlap, no table has two live DNAT rules of a front and every front at rest has no rules or one pair |
| `FrontOverlap.OverlapBreaks` | backend/proxy_agent/main.py:374-398 | for every uninstalled front and any two addresses, two switches that both read before either writes leave two live DNAT rules |
| `MigrationLock.Reachable` | backend/app/database.py:86-126 | the lock invariant holds in every state of every interleaving, exceptions and crashes included |
| `MigrationLock.MutualExclusion` | backend/app/database.py:90-126 | at most one thread of all processes is in the body, and the depth is its nesting |
| `MigrationLock.NestedNeverBlocks` | backend/app/database.py:97-104 | a thread in the body can always enter again and never reaches the file lock |
| `MigrationLock.FreeMeansEntry` | backend/app/database.py:97-120 | when nobody of its process is inside and the file is free, a thread gets into the body in four steps of its own |
| `MigrationLock.SomeoneMoves` | backend/app/database.py:97-126 | no deadlock: whenever some thread is inside the lock, one inside it can go forward, and a thread waits only while another one has the file |
| `MigrationLock.ReleasedOnce` | backend/app/database.py:119-126 | the file lock is given up once per acquisition: when the outermost entry has left, or by the kernel when the process dies |
| `MigrationLock.HandleClosed` | backend/app/database.py:104-126 | the lock file is opened and closed in pairs, whatever fails, and is closed in a thread outside the lock |
| `ConfigRebuild.ResolveNodeId` | backend/app/database.py:176-182 | the loop finds the first scanned node that has the client among its OpenVPN or WireGuard clients, as its type says, else the active one |
| `ConfigRebuild.Database.Execute` | backend/app/database.py:57-79 | a statement changes only the open transaction; an error or a death discards it |
| `ConfigRebuild.Database.Commit` | backend/app/database.py:57-79 | the transaction becomes visible as a whole or not at all |
| `ConfigRebuild.Database.InsertRows` | backend/app/database.py:214-229 | without faults the loop copies all rows if and only if no constraint is hit, foreign keys included |
| `ConfigRebuild.InsertFailsIff` | backend/app/database.py:195-229 | an insert fails exactly on a missing table, an id or a node, client and type that are there already, or a node or owner that does not exist |
| `ConfigRebuild.ScratchDropped` | backend/app/database.py:193-197 | a scratch table that was left behind would stop the rebuild, and is dropped first |
| `ConfigRebuild.Database.RebuildInTransaction` | backend/app/database.py:184-235 | wherever it stops, the committed table is wholly old or wholly new, new only if the rows can be rebuilt; with no fault it finishes if they can and raises if not; a table rebuilt by another worker stays |
| `ConfigRebuild.Database.MigrateNodeScope` | backend/app/database.py:129-238 | the same for the whole step: when it is done every row is on the first scanned node that has its client, else on the stored active node, or the local one if none is stored; nothing happens without a local node |
| `ConfigRebuild.RebuildableIff` | backend/app/database.py:176-229 | the rebuild goes through exactly on tables that are unique on client and type, whose owners all exist and whose rows are all given existing nodes; uniqueness on node, client and type is the same as on client and type |
| `ConfigRebuild.StaleActiveStops` | backend/app/database.py:150-182 | a stored active node that no longer exists stops the rebuild as soon as one client is in no scan |
| `ConfigRebuild.StaleActiveForever` | backend/app/database.py:150-182 | and then every start leaves the table as it was, however many there are |
| `ConfigRebuild.LinksLost` | backend/app/database.py:230 | a rebuild that goes through leaves no tag link |
| `ConfigRebuild.RowsPreserved` | backend/app/database.py:176-229 | every old row has exactly one new row, with its id and the copied columns, on the node that has its client |
| `ConfigRebuild.RebuiltStays` | backend/app/database.py:184-187 | a rebuilt table stays as it is, whatever later attempts scan and wherever they stop |
| `ConfigRebuild.AnyWorkers` | backend/app/database.py:129-238 | over any number of attempts with different scans, each possibly cut short, the table is the original one throughout, or the first attempt that goes through decides it for good |
| `Dedupe.LeaderExists` | backend/app/database.py:601-627 | every group has a lowest (or highest) id |
| `Redemptions.Table.MigrateUserScope` | backend/app/database.py:558-628 | afterwards both indexes and NOT NULL hold, and of the old rows with a node exactly the lowest id of each code and user stays, or of each code, client and node without a user; nothing happens when the schema is ready |
| `Redemptions.IndexesMet` | backend/app/database.py:593-710 | the migrated rows always meet both partial unique indexes and NOT NULL |
| `Redemptions.NoGroupLost` | backend/app/database.py:582-628 | no redemption of a code by a user, or by a client on a node, is lost if it has a node or is given one: exactly its lowest id stays, with its columns |
| `Redemptions.Idempotent` | backend/app/database.py:577-628 | nothing new appears and a second run changes nothing, whatever the fallback node is then |
| `PortalTokens.Table.MigrateActiveUnique` | backend/app/database.py:1471-1506 | afterwards the index holds; exactly the newest active token of each key is active, every other active one is revoked, the rest is untouched; nothing happens when the index exists |
| `PortalTokens.KeepsNewest` | backend/app/database.py:1480-1505 | exactly the newest active token of each key stays active; revoked rows, other columns and the number of rows are untouched |
| `PortalTokens.KeyKeepsToken` | backend/app/database.py:1595-1619 | every key that had an active token still has one, and only one |
| `PortalTokens.RevokedTwice` | backend/app/database.py:1595-1619 | a second update changes nothing |
| `DeadlineBackfill.SubscriptionDeadline` | backend/app/database.py:2134-2169 | the result is the latest deadline of the examined profiles, lies after now, and is absent exactly when one is unlimited or none lies after now |
| `DeadlineBackfill.OneProfile` | backend/app/database.py:2127-2169 | each type has its own policy table, looked up by node and stripped name, in lower case except for OpenVPN |
| `DeadlineBackfill.OtherTablesIrrelevant` | backend/app/database.py:2148-2161 | only the tables of the types that occur matter |
| `DeadlineBackfill.LatestWins` | backend/app/database.py:2134-2169 | the answer is the latest stored deadline of the named profiles of known types; there is none if no stored one lies after now or one of these profiles has nothing stored |
| `DeadlineBackfill.SomeAnswer` | backend/app/database.py:2134-2169 | and otherwise there is one |
| `DeadlineBackfill.OrderIrrelevant` | backend/app/database.py:2140-2169 | the result is determined by the set of profiles, not by the order of rows |
| `DeadlineBackfill.UserDatabase.Backfill` | backend/app/database.py:2175-2222 | a first run gives every undated user the subscription of all owned profiles, never overwrites a date and stores the marker; with a marker row nothing changes |
| `DeadlineBackfill.OwnedRows` | backend/app/database.py:2140-2147 | the profiles of a user are those of the rows that name it as owner and are not copies |
| `DeadlineBackfill.BackfillDates` | backend/app/database.py:2134-2222 | an undated owner of one WireGuard profile with a deadline after now gets that deadline |
| `DeadlineBackfill.EffectUnique` | backend/app/database.py:2175-2222 | the data alone decide what a run does, not the order of users or rows |
| `DeadlineBackfill.OneShotIff` | backend/app/database.py:2172-2222 | once the marker is stored, a later run changes something if and only if it finishes and a restored backup has taken the marker away |
| `DeadlineBackfill.OneShot` | backend/app/database.py:2172-2222 | without such a restore no later run changes anything, whatever else happens in between |
| `DeadlineBackfill.RestoreBetweenChanges` | backend/app/routers/backups.py:398-421 | between two runs that change anything lies the restore of a backup without the marker; a run keeps every date that was set |
| `CidrMove.Store.Move` | backend/app/cidr_database.py:83-149 | what the two databases hold wherever it stops, a death between the two commits included |
| `CidrMove.Store.RunMigrations` | backend/app/cidr_database.py:75-149 | the same with the creation of the table |
| `CidrMove.RunSafe` | backend/app/cidr_database.py:75-149 | wherever a run stops, CIDR rows are kept and the main table is untouched, or gone after being empty or fully copied |
| `CidrMove.RunSettles` | backend/app/cidr_database.py:95-149 | a run that finishes has moved the rows, or left both tables alone because both have rows |
| `CidrMove.StampedIs` | backend/app/cidr_database.py:130-136 | the copy has the same ids and columns, and the time of the run for a missing timestamp |
| `CidrMove.NoRowLost` | backend/app/cidr_database.py:75-149 | over any number of runs, each cut short anywhere, every row is in one of the databases at every point, up to a missing timestamp filled with the time of a run |
| `CidrMove.HalfMovedIff` | backend/app/cidr_database.py:124-147 | from rows in the main table alone a run leaves rows in both exactly when it is cut between its two commits; then every row is in both |
| `CidrMove.HalfMovedAfterCreation` | backend/app/cidr_database.py:81-147 | the same one commit later when the CIDR table has to be created first |
| `CidrMove.CrashBetweenCommitsStays` | backend/app/cidr_database.py:102-108 | whatever later starts meet, they leave such a disk as it is |
| `CidrMove.UndisturbedDropsIff` | backend/app/cidr_database.py:75-149 | after undisturbed starts the main table is gone if and only if it had no rows, or the CIDR table had none and the ranges were unique |
| `RestoreGate.Reachable` | backend/app/services/background_gate.py:65-154 | the invariant of the two gate locks, the pause and the restart holds in every interleaving of several workers, each of which may die alone |
| `RestoreGate.ReplacedOnlyWhilePaused` | backend/app/routers/backups.py:385-421 | panel files are replaced only while background work is paused and no step runs, even if restores overlap |
| `RestoreGate.NeverLeftPaused` | backend/app/routers/backups.py:73-91 | background work is never left paused unless a restore is running, a restart is pending or one has been ordered |
| `RestoreGate.StepNeverWaits` | backend/app/services/background_gate.py:65-82 | a step that has the intent lock never waits for the gate |
| `RestoreGate.RestoreGoesThrough` | backend/app/routers/backups.py:385-421 | when nobody holds the locks, a restore can pause, replace the files and order the restart |
| `RestoreGate.FailureResumes` | backend/app/routers/backups.py:73-91 | after a failed restore or a failed restart background steps start again, before that they do not |
| `DockerUser.Docker.EnsureRule` | backend/proxy_agent/main.py:193-213 | one check and insert, whatever each of the two calls meets, with the flag it returns |
| `DockerUser.Docker.EnsureForwardAllows` | backend/proxy_agent/main.py:166-219 | nothing without the chain, else the rules asked for, empty ports left out, are ensured one after the other; an uncaught exception leaves those before it |
| `DockerUser.AlwaysHeaded` | backend/proxy_agent/main.py:193-219 | whatever fails, the previous rules are an ordered suffix and in front are only asked-for rules |
| `DockerUser.NothingTwiceIff` | backend/proxy_agent/main.py:195-210 | nothing is duplicated if and only if no check of a present rule exits with an error while its insert works |
| `DockerUser.LockedCheckDuplicates` | backend/proxy_agent/main.py:195-210 | an input that inserts a present rule again |
| `DockerUser.PresentIff` | backend/proxy_agent/main.py:193-219 | exactly which asked-for rules are there afterwards |
| `DockerUser.ChangedIsTrueIff` | backend/proxy_agent/main.py:203-219 | the result tells whether a rule was inserted if and only if an insert worked or none that was called exited with an error |
| `DockerUser.FailedInsertReported` | backend/proxy_agent/main.py:203-210 | an input that reports an insert that failed |
| `DockerUser.RequiredDistinct` | backend/proxy_agent/main.py:215-218 | the rules asked for are pairwise different, which the conditions above rest on |
| `DockerUser.UndisturbedHeals` | backend/proxy_agent/main.py:193-219 | with no fault the flag says exactly whether the chain changed |
| `DockerUser.AllPresent` | backend/proxy_agent/main.py:193-219 | with no fault exactly the old and the asked-for rules are there |
| `DockerUser.SecondCallChangesNothing` | backend/proxy_agent/main.py:175-178 | a second call, visiting the ports in any order, inserts nothing |
| `DockerUser.OrderIrrelevant` | backend/proxy_agent/main.py:216-218 | the rules afterwards do not depend on the order in which the ports are visited |
| `Conntrack.ParseConntrackMappings` | backend/proxy_agent/conntrack_maps.py:19-58 | the loop with its set of seen keys computes the first appearances |
| `Conntrack.MappingsDistinct` | backend/proxy_agent/conntrack_maps.py:45-58 | the mappings are pairwise distinct and exactly those the lines contribute |
| `Conntrack.OneTuple` | backend/proxy_agent/conntrack_maps.py:27-41 | a line with one tuple gives its source address and port as the client |
| `Conntrack.TwoTuples` | backend/proxy_agent/conntrack_maps.py:27-41 | with the reply tuple, the destination is source and source port of the reply, and the proxy port is the destination port of the original |
| `Conntrack.TupleIsShown` | backend/proxy_agent/conntrack_maps.py:11-16 | and nothing is read as a tuple but two addresses and two numbers under their keys |
| `Conntrack.NothingContributed` | backend/proxy_agent/conntrack_maps.py:24-30 | blank lines, comments and lines without a tuple give nothing |
| `Conntrack.FirstsPrefix` | backend/proxy_agent/conntrack_maps.py:24-58 | they are in order of first appearance: more lines only add at the end |
| `Conntrack.ParseConcatenated` | backend/proxy_agent/conntrack_maps.py:19-58 | parsing two texts one after the other gives the first parse followed by the new entries of the second |

## Left out

- DestinationStatus.StatusAfterChange: stated for tables as proxy.sh leaves them, where all known-port DNAT rules agree; with mixed destinations the moved rules may stand behind others, which are then reported.
- Unicode: digits, letters and white space are ASCII, lines are separated by newline only.
- Comments with white space or with a double quote of their own, and spellings of a rule other than the ones in `Spelling`.
- Two agent requests at the same time: modelled for fronts (`FrontOverlap`); a DESTINATION change has the table to itself.
- Netfilter persistence and conntrack flushes: best-effort calls after the change, without influence on the rules.
- The lock, the gate and the restore are transition systems on values, not classes: the order of their steps is what matters.
- `migrations_lock` without a database file: it only takes the process-wide lock.
- The HA columns of `vpn_configs`: the rebuilt table does not carry them, so only copied columns are compared.
- ConfigRebuild.Database.MigrateNodeScope: the result of the node scan is a parameter, because it comes from other hosts; what else happens to nodes and users between two starts is not modelled.
- Overlays and portal synchronisation during a restore: they are part of the replacement step.
- Migrations that only add columns, tables or indexes, seeded alert rules, authentication, HTTP routing, mTLS, frontend and CLI: they would only add easy members.
