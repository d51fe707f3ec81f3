# BondVPN: what the gateway guarantees

BondVPN sends the clients of one subnet through WireGuard tunnels and through
nothing else. It does so by driving a kernel it does not own: one `iptables`,
`ip` or `wg-quick` command at a time, repaired on every pass of a loop. This
project models that controller, the two readers and the rewriter of WireGuard
files, the tunnel directory and the version comparison, and proves what they
promise.

Run `dafny verify dfyconfig.toml` in this directory.

## How the model is laid out

The machine (`Firewall`, `Chain`, `Purge`, `Routing`, `Hosts`). `Hosts.Host` is a mutable
machine: FORWARD and DOCKER-USER with first-match-wins, their IPv6 twins, policy
rules ordered by priority with fall-through when a table has no route, routing
tables with longest-prefix lookup, and the interfaces that exist. Every external
command is one method call that may fail, time out before or after it took
effect, or be surrounded by arbitrary changes of the routing by others. Three
constants of a host switch that off: `fwSteady` says that firewall commands do
what they are asked, `fwTruthful` only that the firewall answers questions
truthfully, and `rtSteady` that routing commands work, with nobody else touching
the routing between two commands of one pass. What the machine is capable of is
part of its state: whether its firewall can reject or only drop, whether its
kernel forwards IPv6, takes a route over several interfaces, and takes a policy
rule identical to one it has. The ghost field `trace` records
every state the machine passes through, half-finished ones included, with the
routing and interface commands issued by then; a `Moment` is a place on it.
Foreign firewall rules are arbitrary functions of the packet and its outgoing
interface.

The controller (`Config`, `Tunnels`, `Recovery`, `Plan`, `Rendering`,
`KillSwitch`, `Control`, `Healing`, `Links`, `Passes`, `Daemon`, `Restore`). Each loop of
the program is a loop here, proved against a specification function or predicate
over the state; the theorems are lemmas about those. `Fate` says what becomes of
a packet.

The translators (`Text`, `Words`, `Normalise`, `Meaning`, `Twice`, `WgConf`,
`Keys`, `Values`, `Protocol`, `Uapi`, `Commute`, `ReadBack`, `Said`, `Misvalued`,
`Oversize`). A file is a sequence of Unicode characters; what it says is its list
of statements, the trimmed lines that are neither blank nor comments. `Words` says
which value a file gives a key, by the key's own name; the gate (`WgConf`), the
upload check (`Normalise`) and the device (`Said`) are stated in those words. `Protocol` is an independent reader of the
"Configuration Protocol" of the WireGuard cross-platform interface, and `Values`
says which numbers, prefixes and endpoints it takes.

The tunnel directory (`SafeNames`, `Discovery`, `TunnelDir`) and `Version`.
`Prelude`, `Net`, `Decimal` and `Sorting` hold sequences, IPv4 prefixes (section
3.1 of RFC 4632), decimal text and sorting by text.

## Main results

* Fail closed. From the first rule `applyKillSwitch` inserts, in every state of
  every run (any passes, any routing changes by others, any failures of `ip` and
  `wg-quick`), the chain that every forwarded packet meets lets no new connection
  of a client out on anything but a `wg*` interface, as long as the firewall
  answers its checks truthfully (`Daemon.CmdRun` with `Fate.NothingEscapes`).
* Self-healing without flapping. When the outside only deletes rules, routes and
  interfaces, every pass reads the tunnels the machine then has, issues exactly
  the commands of its recovery attempts, moves nothing but the interfaces
  attempted on, and leaves the plan for the tunnels it read in force; and a pass
  with nothing to do issues no command and moves nothing (`Daemon.Run`, and from
  the start of the program `Daemon.CmdRun`). On any machine at all, whatever fails,
  the interface commands of a run are exactly those of its recovery log, which
  spaces them (`Daemon.InterfaceCommands`, `Recovery.RunIsSpaced`). In force means
  that the kernel routes every flow as wanted (`Control.ApplyRoutesAsWanted`). What is live comes through
  recovery untouched (`Links.LiveComesThrough`), and a tunnel that is down or silent
  is started or cycled by exactly the passes that find its backoff served
  (`Recovery.AttemptsExactly`).
* The change signature neither depends on map order nor confuses two plans.
* Rewriting a provider's file commutes with translating it for wireguard-go; the
  protocol's own reader understands the translated text if and only if the file's
  settings come in order and every value written is one the protocol takes, and
  then as the file's device (`ReadBack.ReadsBack`), which is what the file says key
  by key and section by section (`Said.TextSays`).
* Discovery yields each usable file's own copy once, on every pass, if and only if
  the directory is coherent when it begins, and every method of the directory
  keeps it so unless two names clash (`Discovery.DiscoveryIsRightExactly`).

## Where the code falls short of its promise

Each of these is a lemma or a contract, with the exact condition.

* Re-arming opens an armed machine. `applyKillSwitch` purges before it inserts, so
  a restart passes through a state with the foreign rules alone: nothing gets out
  on the way if and only if the foreign rules by themselves let nothing out, and
  rules nobody knows anything about do not (`Daemon.CmdRun`,
  `KillSwitch.RearmingOpens`, `KillSwitch.RepairOpens`), although main.go:283-288
  wants no such window. The repair step does the same to the IPv4 chain when only
  the IPv6 rule is gone: every state on the way is shut if and only if the IPv6
  side was closed before (`KillSwitch.RepairFirewall`).
* The FORWARD jump is checked for existence, not for position. Behind a guarded
  chain nothing escapes if and only if no jump was already buried below somebody
  else's rule (`KillSwitch.EnsureChainHooks`).
* The IPv6 check looks for the refusal, not for a jump to it and not for what stands
  above it: the side is sealed if and only if nothing is forwarded anyway, or the
  jump comes first in FORWARD and the refusal first in its chain
  (`KillSwitch.SealedExactly`); just armed, if and only if no jump was buried and
  nobody else's rule began the chain (`KillSwitch.ArmedSixSeals`).
* More than 32 pinned clients settle once, when they are first written
  (`Healing.TooManyPinsSettleOnce`); the flush of the next write leaves some of them.
  A kernel before Linux 4.8 takes an identical rule again: then every later write
  fails its own check and leaves more stale rules behind
  (`Healing.TooManyPinsNeverSettle`). A later kernel refuses it: then writing the
  same plan stops at the first pin left over, with the plan out of force, and the
  next write settles if what is there by then can be flushed
  (`Healing.RefusedRewrite`). A write is taken whole if and only if the flush left
  none of its rules or the kernel takes them twice (`Control.Apply`,
  `Healing.RewriteIsTakenExactly`), and once taken passes its own check if and only
  if what it replaced could be flushed (`Healing.WriteSettlesExactly`).
* A client listed twice can make a restore never succeed and the status page
  report a collapse for the only plan possible
  (`Plan.RepeatedClientBreaksRestore`). For every list a restore counts as done if
  and only if something is live and every slot that could carry a client is some
  client's last place (`Plan.RestoredExactly`), and a collapse is reported if and
  only if all last places fall on one slot (`Plan.CollapsedExactly`).
* A default of `pin` is not honoured for unlisted clients (`Plan.PlanFollowsMode`).
* `RestoreTunnels` reports success for the first good plan even if it could not be
  written; on a working machine a plan is written if and only if the kernel takes
  every rule, and then in force if and only if what was there could be flushed
  (`Restore.RestoreTunnels`).
* A file whose `[Interface]` line carries a comment is accepted and normalised,
  and then refused by the daemon (`WgConf.AcceptedButUnfit`;
  `WgConf.NormalisedPassesGate` is the if-and-only-if).
* A file whose settings are out of order translates without an error into text the
  protocol refuses: a peer without a public key, one that gives anything else
  first, a public key outside a peer, or a private key or port inside one
  (`ReadBack.PublicKeyMustComeFirst` is the commonest case). So does a file in
  perfect order with one value the protocol does not take: any integer passes for
  a port or a keepalive, and anything at all for an allowed address
  (`Misvalued.NegativeKeepalive`, `Misvalued.AddressWithoutLength`;
  `ReadBack.NumbersLetThrough` says which integers). `ReadBack.UnderstoodExactly` is
  the if-and-only-if for both.
* Two files with one safe name: with no copies made yet discovery is right on every
  pass if and only if no other `.conf` file shares a usable file's safe name
  (`Discovery.FreshIsCoherentExactly`); two usable ones are listed twice and only
  the first is ever copied (`Discovery.CollidingNamesShareACopy`).
* An upload that its own notes take over the size limit is accepted and never runs
  (`TunnelDir.UploadedIsDropped` is the if-and-only-if,
  `Oversize.AcceptedThenTooLarge` a file that shows it under every wording).
* The comment above `applyKillSwitch` lists six rules; the code installs seven (DNS
  is blocked for UDP and TCP), and so does the model.

## Model

| member | source | states |
|---|---|---|
| Net.OverlapTestExact | config.go:400-408 | testing each network's base address against the other detects an overlap if and only if the two prefixes share an address |
| Config.Problems | config.go:278-355 | each complaint is made exactly when it is in place, and none exactly for a well-formed configuration |
| Config.GuardAgainstSelf | config.go:385-410 | passes if and only if no management address lies in the client subnet and it shares no address with a configured LAN |
| Config.Resolve | config.go:312-323 | a configuration without problems pins and bonds only addresses inside the client subnet |
| Config.ModeFor | config.go:413-425 | the two list searches decide as the lookup in pinned, then bonded, then default |
| Config.ListedDecides | config.go:413-425 | a well-formed file's own pinned list, then its bonded list, then its default decide a client's mode, and the pins keep the order they are listed in |
| Tunnels.LiveTunnels | tunnel.go:271-279 | exactly the live tunnels, in configured order |
| Recovery.RunIsSpaced | tunnel.go:197-267 | over any run, whatever the pass times, attempts on one tunnel are 60 s apart and a restart is 300 s after anything earlier |
| Recovery.WindowBound | tunnel.go:197-267 | any window of W holds at most W/60s + 1 attempts and W/300s + 1 restarts of a tunnel |
| Recovery.BoundedResponse | tunnel.go:214-219 | a tunnel seen down on every pass is started again within 60 s plus the pass interval of its last attempt |
| Recovery.FirstDownPass | tunnel.go:214-219 | a tunnel never touched is started on the first pass that sees it down |
| Recovery.AttemptsExactly | tunnel.go:214-267 | with distinct names a pass starts a tunnel if and only if it is down and untouched for 60 s, and restarts one if and only if it is up, its handshake is older than two staleness windows or never happened, and it is untouched for 300 s; every attempt on it is one of these, at the time of the pass |
| Recovery.SilentResponse | tunnel.go:224-230 | a tunnel seen up and silent on every pass is restarted within 300 s plus the pass interval of its last attempt |
| Recovery.FirstSilentPass | tunnel.go:224-230 | a tunnel never touched is restarted on the first pass that sees it up and silent |
| Recovery.NothingLiveIsTouched | tunnel.go:214-233 | every attempt is on a tunnel that is not live, starts exactly those that are down, and restarts only past two staleness windows or with no handshake ever |
| Plan.BuildPlan | routing.go:41-60 | bond is the live tunnels in order; each listed client is dealt, by its last position, to a live tunnel and that tunnel's table |
| Plan.PlanIsUnique | routing.go:41-60 | that description determines the plan |
| Plan.DistinctPins | routing.go:295-301 | the loop over the map counts the different tunnels that carry a pin |
| Plan.PinsAreRoutable | routing.go:126-138 | every pinned client's table is one of the five that are filled, and it is filled with that client's own live tunnel |
| Plan.LoadOf | routing.go:54-58 | the exact number of clients each live tunnel carries |
| Plan.PinsAreBalanced | routing.go:36-40 | loads of live tunnels differ by at most one |
| Plan.SpreadIsFull | leaktest.go:107-112 | pins spread over min(clients, live) tunnels |
| Plan.RestoreTestMeansLive | leaktest.go:107-112 | for distinct clients the restore test means that something is live, and the collapsed-pins problem never fires on a built plan |
| Plan.RestoredExactly | leaktest.go:107-112 | for every list of clients the restore counts as done if and only if something is live and every slot below both counts is some client's last place |
| Plan.CollapsedExactly | status.go:194-199 | for every list of clients a collapse is reported if and only if two are listed, two tunnels are live and all last places fall on one slot |
| Plan.RepeatedClientBreaksRestore | status.go:194-199 | one client listed twice over two live tunnels makes both tests wrong |
| Plan.PlanFollowsMode | config.go:413-425 | plan and mode agree on who is pinned, except for unlisted clients under a default of pin |
| Rendering.Describe | routing.go:274-289 | the text is that of the plan with its pins in text order, whatever order the map is walked in |
| Decimal.AddrTextIs | routing.go:274-289 | an address is written octet by octet in decimal, the highest first |
| Rendering.SignatureIsDeterministic | routing.go:263-273 | a plan has one text |
| Rendering.SignatureIsInjective | main.go:209-213 | plans of one configuration with equal texts have equal bond, pins and tables |
| Hosts.Host.Iptables | sys.go:20-42 | one firewall command: success means it took effect, failure may mean either, questions are answered exactly by a truthful firewall, and every state is recorded |
| Hosts.Host.Ip | sys.go:20-42 | one routing command, logged; the firewall is untouched |
| Chain.ArmedVerdict | killswitch.go:19-28 | the verdict of the seven rules for every packet, interface and foreign rule below: DNS to the LAN blocked first, replies and local traffic accepted, the rest out by a tunnel or blocked |
| Chain.GuardedFailsClosed | killswitch.go:79-81 | a catch-all with only the code's own rules above it lets no new outbound client packet out on a non-tunnel |
| Chain.ArmedCheckIsSound | killswitch.go:228-239 | for any chain got from an armed one by deletions, a passing check means fail closed |
| Chain.OursMention | killswitch.go:195-213 | each of the seven rules lists the client subnet's text, for a canonical subnet |
| Purge.PurgedFromTop | killswitch.go:203-226 | purging rules that all mention the subnet above rules that do not removes the former from the top, one a round, and stops |
| Purge.EmptyingArmed | killswitch.go:203-226 | some way into the purge of an armed machine it is still shut, or only the foreign rules are left |
| Purge.OthersAloneLetOut | killswitch.go:79-81 | foreign rules and jumps alone keep no outbound packet in |
| Purge.WindowIsExact | killswitch.go:72-119 | over the states of a re-arming nothing gets out if and only if the foreign rules alone let nothing out; they are never all shut |
| Purge.TailHasNoCatchAll | killswitch.go:195-226 | below the seven rules no rule can be mistaken for the catch-all |
| KillSwitch.RejectArgs | killswitch.go:49-70 | the probed refusal is kept, blocks, fits the machine, and rejects wherever the machine can |
| KillSwitch.EnsureChain | killswitch.go:181-193 | creates and hooks the chain, adds no rule to it at any moment |
| KillSwitch.JumpDecides | killswitch.go:187-191 | behind a guarded chain, with anybody's rules in FORWARD, the machine is fail closed if and only if the jump comes first |
| KillSwitch.EnsureChainHooks | killswitch.go:181-193 | once the chain is ensured and guarded, the machine is fail closed if and only if no jump was buried before |
| KillSwitch.PurgeOne | killswitch.go:204-225 | one round removes the first rule that mentions the subnet and nothing else, and when commands work exactly that rule |
| KillSwitch.PurgeOurRules | killswitch.go:203-226 | only mentions go, in at most 64 rounds; what does not mention the subnet keeps its order at every moment; when commands work every state is a step of the purge and the last is its end |
| KillSwitch.Refuse6 | killswitch.go:138-150 | REJECT, then DROP: armed exactly when one is there or can be added, and rejecting where the machine can |
| KillSwitch.ApplyKillSwitch6 | killswitch.go:133-165 | succeeds if and only if IPv6 ends up closed, which it does whenever it was or the machine can refuse; what it leaves is the hook and at most one refusal more, at the end |
| KillSwitch.Ipv6Blocked | status.go:331-342 | agrees with applyKillSwitch6 on what closed means |
| KillSwitch.SealedExactly | killswitch.go:121-165 | no IPv6 packet is forwarded if and only if the kernel forwards none, or the jump comes first in FORWARD and a refusal first in the chain |
| KillSwitch.ArmedSixSeals | killswitch.go:133-165 | just armed, the IPv6 side is closed, and sealed if and only if no jump was buried and the chain began with nobody else's rule |
| KillSwitch.KillSwitchArmed | killswitch.go:235-239 | looks for the catch-all in the form this machine installs |
| KillSwitch.InsertRules | killswitch.go:82-116 | from the first insert on every state is shut; the result is the seven rules above the old chain |
| KillSwitch.ApplyKillSwitch | killswitch.go:72-119 | until the first insert the chain only loses rules, from then on every state is shut even if a later command fails; when commands work the chain is exactly the seven rules above what was left, and it succeeds exactly when IPv6 can be closed |
| KillSwitch.RearmReplaces | killswitch.go:195-202 | re-arming after a LAN change replaces the seven rules and nothing else |
| KillSwitch.RearmHistory | killswitch.go:195-226 | over any history of LAN values: the seven rules for the latest, then the foreign rules in their first order |
| KillSwitch.RearmingOpens | killswitch.go:72-119 | the states of re-arming an armed machine let nothing out if and only if the foreign rules alone let nothing out |
| KillSwitch.CheckAfterDeletions | killswitch.go:228-239 | after arming, whatever is deleted, a passing check means fail closed |
| KillSwitch.ArmedPassesChecks | killswitch.go:228-239 | an armed machine passes both checks of the run loop, for each capability |
| KillSwitch.RepairFirewall | main.go:295-301 | changes nothing at any moment while both checks pass and are answered truthfully, re-arms exactly otherwise; from an armed IPv4 chain every state is shut if and only if the IPv6 side was closed, and nothing gets out if and only if it was or the foreign rules alone let nothing out |
| KillSwitch.RepairOpens | main.go:295-301 | with foreign rules that may do anything, re-arming an armed machine lets something out |
| Control.FlushPriority | routing.go:173-184 | removes the first 32 rules of one priority, in order, and no other rule |
| Control.FlushOurRules | routing.go:173-184 | does so for the four owned priorities and keeps everybody else's rules |
| Control.ApplyBondTable | routing.go:101-123 | one default over the whole bond, or over its first tunnel where the kernel has no multipath routing |
| Control.ApplyPinTable | routing.go:127-135 | one pin table emptied and given exactly its tunnel's default, or left empty |
| Control.ApplyPinTables | routing.go:126-138 | table i holds the default of live tunnel i or nothing; no other table changes |
| Control.ApplyRules | routing.go:141-169 | each owned priority holds what the flush left, then the plan's rules, up to the first that was left and is not taken again |
| Control.Apply | routing.go:63-71 | on working commands it succeeds only if the interface of every live tunnel, up to five, exists, and then if and only if the kernel takes every rule, and writes exactly the plan; otherwise it stops at the first rule refused; it never touches the firewall or an interface |
| Control.FreshExactly | routing.go:155-167 | whether every rule is taken does not depend on the order the pins are walked in |
| Control.LookupInForce | routing.go:141-169 | with a plan in force every flow goes to main for local destinations, to its own pin, or to the bond, with foreign rules in their places |
| Control.ApplyIsExact | routing.go:171-184 | an Apply taken whole puts the plan in force if and only if no owned priority held more than 32 rules |
| Control.InForceIsFlushable | routing.go:171-184 | what is in force can be flushed again if and only if there are at most 32 pins |
| Control.ApplyRoutesAsWanted | routing.go:63-184 | from any flushable state the kernel then routes every flow as wanted, whatever order the pins were added in |
| Control.PlanKeepsToItself | routing.go:141-169 | every rule of a plan is one of four kinds: destinations in the clients' subnet or the LAN to the main table at 90 and 91, one client to its pin table among 51821 to 51825 at 95, all clients to table 51820 at 100 |
| Healing.CountOurRules | routing.go:247-261 | counts the rules at the owned priorities |
| Healing.Installed | routing.go:200-227 | decides by rule count, bond table and pin tables; a failed read counts as fine |
| Healing.WrongTableIsSeen | routing.go:217-234 | a pin table that leads nowhere through its client's tunnel fails the check |
| Healing.CheckIsExact | routing.go:186-227 | after deletions alone it passes if and only if the plan is still in force |
| Healing.WriteSettlesExactly | routing.go:171-227 | a plan written whole passes its own check if and only if what it replaced could be flushed |
| Healing.TooManyPinsNeverSettle | routing.go:177-182 | with more than 32 pins in place a write taken whole, as every write is on a kernel that takes identical rules, fails its own check and leaves more rules than it found |
| Healing.RewriteIsTakenExactly | routing.go:155-160 | a plan in force is taken again if and only if the kernel takes identical rules or there are at most 32 pins |
| Healing.RefusedRewrite | routing.go:155-184 | refused, it stops at the first pin the flush left: out of force and seen to be, with no more pins than it has, flushable exactly when few enough are left |
| Healing.TooManyPinsSettleOnce | routing.go:177-182 | the first write over a kernel that can be flushed is taken, in force, and passes its check |
| Healing.LinksOnlyDelete | routing.go:195-199 | an interface that goes or comes deletes at most routes through it |
| Links.LinkTouches | tunnel.go:162-183 | starting or stopping an interface moves no rule, no other link and no route that does not use it |
| Links.LiveComesThrough | tunnel.go:186-213 | recovery leaves the interface of a live tunnel and every route over live tunnels alone as they were |
| Passes.ReadTunnels | tunnel.go:55-85 | one entry for each configured tunnel with its age, up exactly when its interface exists |
| Passes.Act | tunnel.go:243-264 | one action issues its one or two commands on the tunnel's own interface and moves nothing else |
| Passes.RecoverTunnels | tunnel.go:237-267 | remembers exactly the attempts of the specification, issues exactly their commands in order, and moves nothing but the interfaces attempted on; the firewall is untouched |
| Passes.SkippingIsSound | main.go:209-213 | with the remembered text unchanged the check decides whether the plan is in force |
| Passes.AppliedIsConsistent | main.go:217-223 | what is remembered after a write fits the kernel |
| Passes.PassHeals | main.go:200-225 | after a pass the plan for the tunnels just read is in force; it wrote that plan or nothing, and nothing if it was in force before |
| Daemon.RunLoop.Hold | main.go:208-225 | writes exactly when the text changed or the check fails, and remembers a text only after writing it |
| Daemon.RunLoop.Recover | main.go:201-206 | the pass recorded carries the ages of the look and the links of the moment; the commands issued are those of its attempts and only their interfaces move; the firewall does not move while both checks pass and is re-armed on working commands when one fails |
| Daemon.RunLoop.Refresh | main.go:200-225 | one pass, both halves, with the moment between them: its reads, its commands, and what it wrote |
| Daemon.RunLoop.Step | main.go:200-225 | on any machine a pass is logged: its reads, its moments on the trace, its recovery commands and no other on an interface; on an undisturbed one it is genuine, an idle one issues no command and moves nothing, and what the daemon remembers stays consistent with the kernel |
| Daemon.InterfaceCommands | tunnel.go:237-267 | over any run on any machine the interface commands issued are exactly those of the recovery log, in order |
| Daemon.Run | main.go:255-270 | over any run with deletions between passes: every pass reads the machine, recovers as the log says, writes its plan or nothing and leaves it in force; idle passes issue no command; the firewall never changes while both checks pass, and on working commands the catch-all stands after any pass, whatever the chain was before |
| Daemon.BringUp | main.go:168-176 | one start for each tunnel whose interface is missing, in order, and no other interface moves |
| Links.StartsExactly | main.go:168-176 | those starts are one for each tunnel that is down and none for any other, in order |
| Daemon.Serve | main.go:168-270 | the tunnels as read are brought up, then the passes: an armed firewall never changes, and a clean machine gets the guarantees of the run from that moment on |
| Daemon.ArmFirst | main.go:121-161 | succeeds, with working firewall commands, exactly if the tunnels' files pass the gate, both translations succeed and IPv6 can be closed; from the first insert on every state is shut |
| Daemon.CmdRun | main.go:121-292 | no routing command has been issued in any state up to the first armed one, nor on any failing start; from the first insert on every state is shut; restarting over an armed machine opens it exactly when the foreign rules do; then the tunnels and the guarantees of the run |
| Fate.NothingEscapes | killswitch.go:19-30 | behind a shut chain an outbound packet leaves by a `wg*` interface or not at all, for every routing state and all foreign rules |
| Fate.PinnedDelivery | killswitch.go:86-90 | a pinned client's packet leaves exactly by its own tunnel, if and only if its name starts with wg |
| Fate.BondedDelivery | routing.go:101-123 | any other client's packet leaves exactly by the bond's tunnels whose names start with wg |
| Fate.GuardProtectsHost | config.go:372-384 | with no problems and a passing guard no packet from a management address matches a pin or bond rule |
| Restore.RestoreOnce | leaktest.go:102-112 | one attempt reads the machine, writes the plan for what it read if the kernel takes it, and is judged by that plan |
| Restore.TriesHold | leaktest.go:100-114 | on an undisturbed clean machine with at most 32 pins every attempt leaves its plan in force |
| Restore.RestoreTunnels | leaktest.go:81-119 | every tunnel is started, then each attempt happens on the machine after the one before: success at the first plan that passes the test whether or not it was written, an error only after six that did not |
| Restore.UpsExactly | leaktest.go:81-99 | its starts are one for every tunnel, up or not, in order |
| Restore.GivesUpOnlyWhenNothingIsLive | leaktest.go:100-119 | with distinct clients and names a restore fails only if nothing was live at any attempt |
| Text.ReadersAgree | userspace.go:158-162 | scanning lines and splitting at newlines see the same statements |
| Text.PaddingGoes | userspace.go:158-162 | blanks, tabs and carriage returns around a text with visible ends go, and nothing more |
| Text.LettersFold | userspace.go:178-179 | lowering maps each of the twenty-six capitals to its own letter and leaves every other ASCII character alone |
| Normalise.ValidateWGConfig | wgnormalise.go:101-144 | accepts exactly a file that is not empty, at most 65536 bytes, without zero bytes, holds both section names and sets a private key, a public key and an address; refuses any other for the first of these that fails |
| Normalise.FaultExactly | wgnormalise.go:101-144 | the same of the specification: no fault exactly for an acceptable file, otherwise the first condition that fails |
| Text.Utf8LengthIsBytes | wgnormalise.go:101-108 | the length held against the limit is the number of bytes of the text in UTF-8 |
| Normalise.HeaderByWord | wgnormalise.go:63-67 | the interface header is the line that, trimmed and folded to lower case, is that word |
| Normalise.RewriteLine | wgnormalise.go:50-69 | what is written for one line, and whether it sets the keepalive |
| Normalise.NormaliseUpload | wgnormalise.go:31-78 | an error exactly for a file that is not acceptable, naming the first thing wrong; otherwise the rewritten text |
| Meaning.NormalisedSays | wgnormalise.go:31-78 | the output says what the input says, without DNS and Table, with Table off right under the header and a keepalive at the end when there was none |
| Meaning.NothingIsLost | wgnormalise.go:50-60 | every line of the file is in the output, DNS and Table lines behind the note that says they were removed |
| Twice.NormalisingTwice | tunneldir.go:138-145 | normalising twice says the same as once |
| Twice.AcceptedAgain | tunneldir.go:142-145 | an accepted file is accepted again after normalising if and only if it still fits the size limit |
| WgConf.ParseWgConf | wgconf.go:22-45 | the loop reads the statements, later settings override |
| WgConf.FitExactly | wgconf.go:22-70 | for every file, over its statements: no fatal problem if and only if the last Table value is off in any case and the last DNS value, if any, is empty; no warning if and only if the last keepalive value is neither empty nor 0 |
| WgConf.Problems | wgconf.go:49-82 | no fatal problem exactly for Table off and no DNS; a warning exactly without keepalive |
| WgConf.ReadByKey | wgconf.go:27-43 | this reader and the rewriter agree on which setting a statement is, although only one skips headers |
| WgConf.NormalisedPassesGate | wgnormalise.go:63-67 | a normalised file passes if and only if some line was exactly the header; keepalive missing exactly when the file's own last one was empty or 0 |
| WgConf.CheckTunnelConfigs | wgconf.go:85-99 | nothing is fatal exactly when every tunnel's file can be read, its last Table setting is off and its last DNS setting, if any, is empty; nothing is warned of exactly when every readable file's last keepalive is neither empty nor 0 |
| WgConf.CopiesPassGate | wgconf.go:85-99 | normalised copies pass the gate exactly when every file they are made from has the bare interface header |
| WgConf.AcceptedButUnfit | wgnormalise.go:115-120 | a concrete accepted file that fails the gate |
| Keys.KeyRoundTrip | userspace.go:256-265 | for all 32-byte keys base64 comes out as hex of exactly those bytes |
| Keys.SameHexSameKey | userspace.go:256-265 | two texts give one hex exactly when they denote one key; the hex has 64 digits |
| Keys.KeyTextsExactly | userspace.go:256-265 | a text denotes a key exactly when, trimmed and without line ends, it is 43 characters of the base64 alphabet and one equals sign |
| Keys.AlphabetInOrder | userspace.go:256-265 | the sixty-four characters denote 0 to 63 in the standard order |
| Uapi.ListItems | userspace.go:190-195 | the non-blank trimmed entries of a comma list |
| Uapi.ItemsOfList | userspace.go:190-195 | entries joined with commas, with or without blanks around them, come apart into just those entries, blank ones passed over |
| Uapi.AtoiTakes | userspace.go:185-187 | the decimals of n pass as an integer exactly when n fits 64 bits, with or without a sign |
| Uapi.AtoiIsDigits | userspace.go:185-187 | what passes as an integer is all digits but for one sign in front |
| Uapi.EmitLine | userspace.go:159-225 | one line of the file, as the specification says |
| Uapi.UapiFromConfig | userspace.go:154-231 | the loop is the translation of the file's statements, with its first error |
| Commute.NormalisingCommutes | userspace.go:154-231 | for every file: the same error, or the same addresses and text plus one keepalive line exactly when it set none |
| Commute.NormalisedReadsBack | wgnormalise.go:73-76 | from provider's file to device through both: understood exactly when the file is in order with every value well formed, and then the file's device, with a keepalive on its last peer when it sets none |
| ReadBack.ReadsBack | userspace.go:148-231 | for every file that translates: the text parses under the protocol exactly when the file is in order and every value written is one the protocol takes, into exactly the file's key, port and ordered peers, and the addresses are the file's |
| Said.TextSays | userspace.go:148-231 | wireguard-go makes of the text what the file says in its own words: the last PrivateKey, the last ListenPort that is one, a peer for each [Peer] section with that section's public key, preshared key, endpoint, allowed addresses and keepalive; and the interface gets the entries of every Address |
| Said.PrivateKeyArrives | userspace.go:179-184 | a last PrivateKey that is base64 of 32 bytes arrives as exactly those bytes |
| Said.PeerKeysArrive | userspace.go:196-207 | so do a peer's public and preshared keys |
| Said.ClassifyByName | userspace.go:178-224 | each of the eight settings is recognised by exactly its own name |
| Said.Written | userspace.go:159-225 | what each statement adds to the text, letter for letter: `public_key=` for a peer header, one line for each setting under its own name, one for each allowed address, nothing for a number that is none and for any other statement; an Address adds only its entries |
| Said.ErrorsSaid | userspace.go:178-229 | translation fails with the first key that is none or endpoint that does not resolve, by setting name, and for want of a peer only where no statement is wrong and no line is a peer header |
| ReadBack.PhaseMeansOrder | userspace.go:163-225 | being in order means: every header followed at once by a public key, none elsewhere, device settings before every header, peer settings after one |
| ReadBack.UnderstoodExactly | userspace.go:148-231 | a translated file is understood if and only if the statements that write something are in order, do not end with a header, and hold only values the protocol takes |
| ReadBack.NumbersLetThrough | userspace.go:178-223 | the integers written and not taken are those with a sign or of more than 16 bits |
| Misvalued.InOrderButRefused | userspace.go:148-231 | any one setting in its place with an ill-formed value makes a file that is in order, translates and is refused |
| Misvalued.NegativeKeepalive | userspace.go:221-224 | a keepalive of -1 in a file in order gives text the protocol refuses |
| Misvalued.AddressWithoutLength | userspace.go:214-220 | an allowed address without a prefix length in a file in order gives text the protocol refuses |
| Values.PrefixesAreTaken | userspace.go:214-220 | every IPv4 prefix as it is usually written is a value the protocol takes |
| Values.EndpointsAreTaken | userspace.go:236-254 | every IPv4 address joined with a 16-bit port is a value the protocol takes |
| Values.EightGroups | userspace.go:214-220 | eight groups of hexadecimal digits joined with colons are an IPv6 address the protocol takes |
| Values.DoubleColon | userspace.go:214-220 | so are fewer than eight around a double colon |
| ReadBack.TranslatesExactly | userspace.go:178-229 | translation fails exactly for a bad key, an unresolved endpoint or no peer |
| ReadBack.PublicKeyMustComeFirst | userspace.go:163-166 | a peer whose first setting is not its public key puts the file out of order for good, whatever comes before and after |
| SafeNames.SafeNameIsStable | tunneldir.go:194-216 | a safe name is a fixed point of the rule, with a stem of one to fifteen safe characters |
| SafeNames.SafeNameExactly | tunneldir.go:194-216 | for every path that does not end in a slash: the directory and a .conf suffix do not count, blanks around the stem go, blanks and dots inside become dashes, letters lower case; accepted exactly when one to fifteen safe characters remain, and refused for the first reason otherwise |
| Discovery.CopiedIsCurrent | tunneldir.go:123-160 | in a coherent directory it succeeds exactly for a usable source, makes its copy current and keeps the directory coherent |
| Discovery.CopiedByTime | tunneldir.go:123-160 | a copy no older than its file is left as it is; an older or missing one is made anew from an acceptable file, and any other file writes nothing |
| Discovery.DiscoveryIsExact | tunneldir.go:79-95 | over a coherent directory: each usable file's copy once and nothing else |
| Discovery.DiscoveryIsRightExactly | tunneldir.go:53-95 | discovery yields each usable file's own copy once on every one of two or more passes if and only if the directory is coherent when they begin |
| Discovery.FreshIsCoherentExactly | tunneldir.go:123-136 | with no copies made yet coherent means that no other .conf file shares a usable file's safe name |
| Discovery.DiscoveryIsQuiet | tunneldir.go:120-136 | with every copy current nothing is written |
| Discovery.CollidingNamesShareACopy | tunneldir.go:123-136 | two usable files with one safe name share the first one's copy |
| Sorting.SortIsAscending | tunneldir.go:93 | sorting different texts gives them in strictly ascending order |
| Sorting.LessMeans | tunneldir.go:93 | a text comes before another when it is its beginning or has the smaller character at the first difference |
| TunnelDir.PathsAreCapped | tunneldir.go:28-47 | at most five different non-blank paths, none passed over while there is room |
| TunnelDir.ExplicitComesFirst | tunneldir.go:25-27 | entries listed by hand keep their places whatever the directory holds |
| TunnelDir.PathsLeadToCopies | tunneldir.go:86-93 | the path listed for a copy lies in the working directory and its base is the copy's name |
| TunnelDir.UploadedIsDropped | settings.go:274-282 | an uploaded and a dropped-in file give copies that say the same, and the uploaded one is usable exactly if it still fits the limit |
| Oversize.AcceptedThenTooLarge | wgnormalise.go:101-108 | a file at the limit is accepted, and refused once normalised, whatever the notes say |
| TunnelDir.Directory.Drop | tunneldir.go:53-69 | a file dropped in or edited keeps the directory coherent unless its name clashes, which distinct names cannot |
| TunnelDir.Directory.RemoveByHand | tunneldir.go:97-115 | a file removed by hand leaves the others as they were and the directory coherent unless names clash |
| TunnelDir.Directory.NormalisedCopy | tunneldir.go:123-160 | the method is the specified step |
| TunnelDir.Directory.DirTunnels | tunneldir.go:70-95 | the sorted listing of discovery; in a coherent directory exactly the copies of the usable files, each what normalising its file now gives, and quiet when all are current |
| TunnelDir.Directory.TunnelPaths | tunneldir.go:28-47 | explicit entries, then discovered copies, deduplicated and capped |
| TunnelDir.Directory.Upload | settings.go:219-291 | each refusal for exactly its own reason, the cap exactly when the name is new and the list full; otherwise the normalised file is stored under its safe name |
| TunnelDir.Directory.DeleteTunnel | settings.go:303-335 | removes exactly a file stored under its safe name, and its copy; no other file's standing changes |
| Version.SplitVersion | update.go:180-195 | the fields, or none when one does not parse |
| Version.NewerVersion | update.go:163-178 | newer exactly when the first differing zero-padded field is larger |
| Version.ReleaseReads | update.go:180-195 | numbers written in decimal and joined with dots read as exactly those numbers, with or without a leading v and with any suffix from a dash or plus on |
| Version.NewerByNumbers | update.go:163-195 | one release is newer than another exactly when its numbers are, at the first difference, missing ones counting as zero |
| Version.TenAfterNine | update.go:157-162 | 1.10.0 comes after 1.9.0 |
| Version.BadFieldIsNothing | update.go:187-192 | a version without a sign and with one field that is empty or not all digits reads as nothing |
| Version.AfterIsTransitive | update.go:163-178 | newer is transitive |
| Version.AfterIsTotal | update.go:163-178 | exactly one of newer, older and tied holds |
| Version.AfterIsNegativelyTransitive | update.go:163-178 | not newer is transitive, so releases fall into ranks |
| Version.TiesMeansPadding | update.go:163-178 | a tie with a longer version means its further fields are zero |
| Version.UnparsedIsNeverNewer | update.go:159-162 | what does not parse is newer than nothing |

## Left out

- Daemon.CmdRun: the whole-run guarantee assumes that nobody else changes the filter table, that the firewall answers questions truthfully, that no FORWARD jump is buried below another rule at the start, and that firewall capabilities and IPv6 forwarding do not change; the routing may be changed by anybody at any moment.
- Daemon.Run: self-healing assumes routing commands that work, outside changes that only delete (rules, routes, interfaces) between passes, at most 32 pinned clients, at most five tunnels, and interface names without spaces or semicolons.
- KillSwitch.RearmingOpens: assumes a canonical client subnet shorter than /32 and foreign rules that do not mention it; KillSwitch.RepairFirewall and the restart clause of Daemon.CmdRun assume the same.
- KillSwitch.RearmHistory: assumes a canonical client subnet shorter than /32, because the purge compares listed text with the configured text, and at most 64 rules that mention it.
- Plan.PinsAreBalanced: assumes distinct pinned clients and distinct interface names, which the configuration does not check.
- Misvalued.InOrderButRefused: an address:port or a prefix is well formed by the predicates of `Values`; IPv6 zones are not among them, since the resolver never returns one.
- ReadBack.ReadsBack: peers are blocks in order; two blocks with the same public key are kept apart, where the protocol would merge them.
- TunnelDir.Directory.Upload: file operations succeed, and a write through a temporary name and a rename is one step.
- TunnelDir.Directory.Drop: every write gets a later modification time than all before it.
- NAT and the client DNS redirect are single check-then-add rules; of both only success or failure at the start is kept.
- Process execution, timeouts and the parsing of `wg` output: interface states are read from the machine, handshake ages and command outcomes are inputs.
- wg-quick is taken to create or remove one interface and the routes through it; its hooks and address assignment are not modelled.
- The waits of the leak test, its probes and its measurements.
- The update check, signatures, the hash policy, the status document, the HTTP handlers and the dashboard.
- Parsing the configuration file and its syntax errors; a setting is absent, malformed or given.
- Clients are addresses, not texts: two spellings of one address are one client.
- Go's 64-bit durations: ages times one second do not overflow here.
- A bond route means some interface of the bond; flow hashing is not modelled. ICMP is any other protocol.
- IPv6 packets: only that arming and checking agree on whether the IPv6 side is closed.
- Files that are not valid UTF-8, and the scanner's limit on the length of one line; letter case outside ASCII only where it meets ASCII names.
- The wording of comments and messages: the comments the rewriter adds are a parameter.
- Name resolution is a parameter; the lemmas that need it assume that an endpoint is one line.
